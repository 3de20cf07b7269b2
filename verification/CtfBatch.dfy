/**
 Columnar batches of raw counter events: exact duplicates are folded into the first record of their key,
 each series becomes one block in time order, and identifiers index sorted tables.
 */
module CtfBatch {
  import opened Wrappers
  import opened Sorting
  import opened Comparing
  import StringOrder

  datatype Collector = Collector(host: string, name: string, rank: Option<int>, process: Option<string>)

  datatype Series = Series(host: string, interface: string, counter: string, name: string, rank: Option<int>, process: Option<string>)

  datatype Record = Record(index: nat, series: Series, time: int, value: nat)

  /** A kept record, the source indices folded into it, and whether its series arrived out of order. */
  datatype Entry = Entry(record: Record, duplicates: seq<nat>, reordered: bool)

  function CollectorOf(s: Series): Collector {
    Collector(s.host, s.name, s.rank, s.process)
  }

  predicate SameKey(a: Record, b: Record) {
    a.series == b.series && a.time == b.time
  }

  // ---------------------------------------------------------------- duplicates

  /** Position of the kept record with the key of `r`. */
  function Position(kept: seq<Entry>, r: Record): (p: Option<nat>)
    ensures p.Some? ==> p.value < |kept| && SameKey(kept[p.value].record, r)
    ensures p.None? ==> forall i :: 0 <= i < |kept| ==> !SameKey(kept[i].record, r)
  {
    if kept == [] then None
    else if SameKey(kept[0].record, r) then Some(0)
    else match Position(kept[1..], r)
         case None => None
         case Some(p) => Some(p + 1)
  }

  function Absorb(kept: seq<Entry>, r: Record): seq<Entry> {
    match Position(kept, r)
    case None => kept + [Entry(r, [], false)]
    case Some(p) => kept[p := kept[p].(duplicates := kept[p].duplicates + [r.index])]
  }

  function Kept(records: seq<Record>): seq<Entry> {
    if records == [] then [] else Absorb(Kept(records[..|records| - 1]), records[|records| - 1])
  }

  /** One key carries two values. */
  predicate Conflicting(records: seq<Record>) {
    exists i, j :: 0 <= i < j < |records| && SameKey(records[i], records[j]) && records[i].value != records[j].value
  }

  predicate DifferentKeys(a: Entry, b: Entry) {
    !SameKey(a.record, b.record)
  }

  lemma {:induction false} KeptSnoc(records: seq<Record>, r: Record)
    ensures Kept(records + [r]) == Absorb(Kept(records), r)
  {
    assert (records + [r])[..|records|] == records;
  }

  lemma {:induction false} KeptKeys(records: seq<Record>)
    ensures Pairwise(Kept(records), DifferentKeys)
  {
    if records != [] { KeptKeys(records[..|records| - 1]); }
  }

  predicate Holds(e: Entry, r: Record) {
    SameKey(e.record, r) && (r.index == e.record.index || r.index in e.duplicates)
  }

  /** Some entry holds the event. */
  predicate HeldIn(kept: seq<Entry>, r: Record) {
    exists i :: 0 <= i < |kept| && Holds(kept[i], r)
  }

  lemma {:induction false} AbsorbKeeps(kept: seq<Entry>, r: Record, x: Record)
    requires HeldIn(kept, x)
    ensures HeldIn(Absorb(kept, r), x)
  {
    var i :| 0 <= i < |kept| && Holds(kept[i], x);
    assert Holds(Absorb(kept, r)[i], x);
  }

  lemma {:induction false} AbsorbHolds(kept: seq<Entry>, r: Record)
    ensures HeldIn(Absorb(kept, r), r)
  {
    var i := if Position(kept, r).Some? then Position(kept, r).value else |kept|;
    assert Holds(Absorb(kept, r)[i], r);
  }

  /** Every source event is the record of a kept entry or among the duplicates of one with its key. */
  lemma {:induction false} KeptHolds(records: seq<Record>, k: nat)
    requires k < |records|
    ensures HeldIn(Kept(records), records[k])
  {
    hide Absorb, Holds, HeldIn;
    var n := |records| - 1;
    if k < n {
      assert records[..n][k] == records[k];
      KeptHolds(records[..n], k);
      AbsorbKeeps(Kept(records[..n]), records[n], records[k]);
    } else {
      AbsorbHolds(Kept(records[..n]), records[n]);
    }
  }

  lemma {:induction false} KeptFromRecords(records: seq<Record>, i: nat)
    requires i < |Kept(records)|
    ensures Kept(records)[i].record in records && !Kept(records)[i].reordered
  {
    var n := |records| - 1;
    var before := Kept(records[..n]);
    assert Kept(records) == Absorb(before, records[n]);
    if i < |before| {
      KeptFromRecords(records[..n], i);
      assert Kept(records)[i].record == before[i].record && Kept(records)[i].reordered == before[i].reordered;
    } else {
      assert Kept(records)[i] == Entry(records[n], [], false);
    }
  }

  function Indices(kept: seq<Entry>): seq<nat> {
    if kept == [] then [] else [kept[0].record.index] + kept[0].duplicates + Indices(kept[1..])
  }

  function Sources(records: seq<Record>): (r: seq<nat>)
    ensures |r| == |records| && forall i :: 0 <= i < |r| ==> r[i] == records[i].index
  {
    seq(|records|, i requires 0 <= i < |records| => records[i].index)
  }

  lemma {:induction false} IndicesCons(e: Entry, kept: seq<Entry>)
    ensures multiset(Indices([e] + kept)) == multiset{e.record.index} + multiset(e.duplicates) + multiset(Indices(kept))
  {
    assert ([e] + kept)[1..] == kept;
  }

  lemma {:induction false} AbsorbCons(e: Entry, kept: seq<Entry>, r: Record)
    ensures Absorb([e] + kept, r) ==
            if SameKey(e.record, r) then [e.(duplicates := e.duplicates + [r.index])] + kept else [e] + Absorb(kept, r)
  {
    assert ([e] + kept)[1..] == kept;
  }

  lemma {:induction false} NothingKept(r: Record)
    ensures Indices([]) == [] && Absorb([], r) == [Entry(r, [], false)] && Indices([Entry(r, [], false)]) == [r.index]
  {
  }

  lemma {:induction false} AbsorbIndices(kept: seq<Entry>, r: Record)
    ensures multiset(Indices(Absorb(kept, r))) == multiset(Indices(kept)) + multiset{r.index}
  {
    hide *;
    NothingKept(r);
    if kept != [] {
      var e, rest := kept[0], kept[1..];
      assert kept == [e] + rest;
      AbsorbCons(e, rest, r);
      IndicesCons(e, rest);
      if SameKey(e.record, r) {
        var grown := e.(duplicates := e.duplicates + [r.index]);
        IndicesCons(grown, rest);
        assert multiset(grown.duplicates) == multiset(e.duplicates) + multiset{r.index};
      } else {
        AbsorbIndices(rest, r);
        IndicesCons(e, Absorb(rest, r));
      }
    }
  }

  /** Each source index appears exactly as often as in the input: as a kept row, or among one kept row's duplicates. */
  lemma {:induction false} KeptIndices(records: seq<Record>)
    ensures multiset(Indices(Kept(records))) == multiset(Sources(records))
  {
    hide Absorb, Indices;
    if records == [] {
      NothingKept(Record(0, Series("", "", "", "", None, None), 0, 0));
    } else {
      var n := |records| - 1;
      KeptIndices(records[..n]);
      AbsorbIndices(Kept(records[..n]), records[n]);
      assert Sources(records) == Sources(records[..n]) + [records[n].index];
    }
  }

  /** Without a conflict nothing is lost: the value of every source event is the value of its kept entry. */
  lemma {:induction false} ValuesKept(records: seq<Record>, k: nat)
    requires k < |records| && !Conflicting(records)
    ensures exists i :: 0 <= i < |Kept(records)| && Holds(Kept(records)[i], records[k]) && Kept(records)[i].record.value == records[k].value
  {
    KeptHolds(records, k);
    var i :| 0 <= i < |Kept(records)| && Holds(Kept(records)[i], records[k]);
    KeptFromRecords(records, i);
    var j :| 0 <= j < |records| && records[j] == Kept(records)[i].record;
    assert j != k ==> SameKey(records[j], records[k]) && SameKey(records[k], records[j]);
  }

  lemma {:induction false} AgreeOnKey(records: seq<Record>, i: nat, j: nat)
    requires !Conflicting(records) && i < |records| && j < |records| && SameKey(records[i], records[j])
    ensures records[i].value == records[j].value
  {
  }

  predicate ConflictsWith(records: seq<Record>, r: Record) {
    exists i :: 0 <= i < |records| && SameKey(records[i], r) && records[i].value != r.value
  }

  lemma {:induction false} ConflictSnoc(records: seq<Record>, r: Record)
    ensures Conflicting(records + [r]) <==> Conflicting(records) || ConflictsWith(records, r)
  {
    var after := records + [r];
    assert forall i :: 0 <= i < |records| ==> after[i] == records[i];
    assert after[|records|] == r;
    if i :| 0 <= i < |records| && SameKey(records[i], r) && records[i].value != r.value {
      assert SameKey(after[i], after[|records|]);
    }
    if i, j :| 0 <= i < j < |records| && SameKey(records[i], records[j]) && records[i].value != records[j].value {
      assert SameKey(after[i], after[j]);
    }
  }

  /** The first conflict shows up as an event that disagrees with the kept entry of its key. */
  lemma {:induction false} ConflictStep(records: seq<Record>, r: Record)
    requires !Conflicting(records)
    ensures var p := Position(Kept(records), r);
            Conflicting(records + [r]) <==> p.Some? && Kept(records)[p.value].record.value != r.value
  {
    hide Conflicting, Kept, Absorb;
    ConflictSnoc(records, r);
    var kept := Kept(records);
    var p := Position(kept, r);
    if p.Some? {
      KeptFromRecords(records, p.value);
      var j :| 0 <= j < |records| && records[j] == kept[p.value].record;
      forall i | 0 <= i < |records| && SameKey(records[i], r) ensures records[i].value == records[j].value {
        AgreeOnKey(records, i, j);
      }
    } else {
      forall i | 0 <= i < |records| ensures !SameKey(records[i], r) { NotKept(records, i, r); }
    }
  }

  lemma {:induction false} NotKept(records: seq<Record>, i: nat, r: Record)
    requires i < |records| && Position(Kept(records), r).None?
    ensures !SameKey(records[i], r)
  {
    KeptHolds(records, i);
  }

  // ---------------------------------------------------------------- arrival order

  function RecordsOf(entries: seq<Entry>): (r: seq<Record>)
    ensures |r| == |entries| && forall i :: 0 <= i < |r| ==> r[i] == entries[i].record
  {
    seq(|entries|, i requires 0 <= i < |entries| => entries[i].record)
  }

  /** Timestamps of one series, in arrival order. */
  function TimesOf(records: seq<Record>, s: Series): seq<int> {
    if records == [] then []
    else TimesOf(records[..|records| - 1], s)
         + if records[|records| - 1].series == s then [records[|records| - 1].time] else []
  }

  /** Some event is older than the one before it. */
  predicate Inverted(times: seq<int>) {
    exists i :: 1 <= i < |times| && times[i] < times[i - 1]
  }

  function MarkedAs(records: seq<Record>, e: Entry): Entry {
    e.(reordered := e.reordered || Inverted(TimesOf(records, e.record.series)))
  }

  function Marked(entries: seq<Entry>): (r: seq<Entry>)
    ensures |r| == |entries|
    ensures forall i :: 0 <= i < |r| ==> r[i] == MarkedAs(RecordsOf(entries), entries[i])
  {
    seq(|entries|, i requires 0 <= i < |entries| => MarkedAs(RecordsOf(entries), entries[i]))
  }

  lemma {:induction false} InvertedBetween(times: seq<int>, i: nat, j: nat)
    requires i < j < |times| && times[j] < times[i]
    ensures Inverted(times)
    decreases j
  {
    if !(times[j] < times[j - 1]) { InvertedBetween(times, i, j - 1); }
  }

  /** A series is marked exactly when it did not arrive in time order. */
  lemma {:induction false} InvertedIffUnsorted(times: seq<int>)
    ensures Inverted(times) <==> exists i, j :: 0 <= i < j < |times| && times[j] < times[i]
  {
    if Inverted(times) {
      var i :| 1 <= i < |times| && times[i] < times[i - 1];
      assert 0 <= i - 1 < i < |times|;
    }
    if i, j :| 0 <= i < j < |times| && times[j] < times[i] { InvertedBetween(times, i, j); }
  }

  // ---------------------------------------------------------------- row order

  type CollectorKey = (string, (string, (Option<int>, Option<string>)))
  type SeriesKey = (string, (string, (string, CollectorKey)))
  type RowKey = (SeriesKey, (int, int))

  function KeyOfCollector(c: Collector): CollectorKey {
    (c.host, (c.name, (c.rank, c.process)))
  }

  function KeyOfSeries(s: Series): SeriesKey {
    (s.host, (s.interface, (s.counter, KeyOfCollector(CollectorOf(s)))))
  }

  function KeyOfRow(e: Entry): RowKey {
    (KeyOfSeries(e.record.series), (e.record.time, e.record.index))
  }

  function CollectorOrder(): (CollectorKey, CollectorKey) -> Cmp {
    Pairs(Strings, Pairs(Strings, Pairs(Options(Ints), Options(Strings))))
  }

  function SeriesOrder(): (SeriesKey, SeriesKey) -> Cmp {
    Pairs(Strings, Pairs(Strings, Pairs(Strings, CollectorOrder())))
  }

  function RowOrder(): (RowKey, RowKey) -> Cmp {
    Pairs(SeriesOrder(), Pairs(Ints, Ints))
  }

  lemma {:induction false} OrdersAreLawful()
    ensures Lawful(CollectorOrder()) && Lawful(SeriesOrder()) && Lawful(RowOrder())
  {
    hide Pairs, Options, Strings, Ints, Lawful;
    StringsLawful();
    IntsLawful();
    OptionsLawful(Ints);
    OptionsLawful(Strings);
    PairsLawful(Options(Ints), Options(Strings));
    PairsLawful(Strings, Pairs(Options(Ints), Options(Strings)));
    PairsLawful(Strings, Pairs(Strings, Pairs(Options(Ints), Options(Strings))));
    PairsLawful(Strings, CollectorOrder());
    PairsLawful(Strings, Pairs(Strings, CollectorOrder()));
    PairsLawful(Strings, Pairs(Strings, Pairs(Strings, CollectorOrder())));
    PairsLawful(Ints, Ints);
    PairsLawful(SeriesOrder(), Pairs(Ints, Ints));
  }

  function Rows(entries: seq<Entry>): (r: seq<Entry>)
    ensures |r| == |entries|
  {
    Sort(entries, AtMost(By(KeyOfRow, RowOrder())))
  }

  /** Rows of one series are contiguous. */
  ghost predicate Contiguous(rows: seq<Entry>) {
    forall i, j, k :: 0 <= i < j < k < |rows| && rows[i].record.series == rows[k].record.series
                      ==> rows[j].record.series == rows[i].record.series
  }

  /** Within a series, timestamps strictly increase. */
  ghost predicate TimesIncrease(rows: seq<Entry>) {
    forall i, j :: 0 <= i < j < |rows| && rows[i].record.series == rows[j].record.series
                   ==> rows[i].record.time < rows[j].record.time
  }

  lemma {:induction false} SameSeriesKey(a: Series, b: Series)
    ensures KeyOfSeries(a) == KeyOfSeries(b) <==> a == b
  {
  }

  lemma {:induction false} Between<A(!new), B(!new)>(c: (A, A) -> Cmp, d: (B, B) -> Cmp, x: (A, B), y: (A, B), z: (A, B))
    requires Lawful(c) && Lawful(d)
    requires Pairs(c, d)(x, y) != Greater && Pairs(c, d)(y, z) != Greater && x.0 == z.0
    ensures y.0 == x.0
  {
    assert c(x.0, y.0) != Greater && c(y.0, z.0) != Greater;
  }

  lemma {:induction false} RowsInOrder(entries: seq<Entry>)
    ensures Sorted(Rows(entries), AtMost(By(KeyOfRow, RowOrder())))
    ensures multiset(Rows(entries)) == multiset(entries)
  {
    hide Sort, RowOrder, Lawful;
    OrdersAreLawful();
    ByTotal(KeyOfRow, RowOrder());
    SortSorts(entries, AtMost(By(KeyOfRow, RowOrder())));
    SortPermutes(entries, AtMost(By(KeyOfRow, RowOrder())));
  }

  /** The row order puts each series into one block with strictly increasing timestamps. */
  lemma {:induction false} SeriesAreBlocks(entries: seq<Entry>)
    requires Pairwise(entries, DifferentKeys)
    ensures Contiguous(Rows(entries)) && TimesIncrease(Rows(entries))
  {
    hide Rows, SeriesOrder, KeyOfSeries, Lawful;
    var rows := Rows(entries);
    RowsInOrder(entries);
    OrdersAreLawful();
    IntsLawful();
    PairsLawful(Ints, Ints);
    forall i, j, k | 0 <= i < j < k < |rows| && rows[i].record.series == rows[k].record.series
      ensures rows[j].record.series == rows[i].record.series
    {
      RowsAscend(rows, i, j);
      RowsAscend(rows, j, k);
      Between(SeriesOrder(), Pairs(Ints, Ints), KeyOfRow(rows[i]), KeyOfRow(rows[j]), KeyOfRow(rows[k]));
      SameSeriesKey(rows[j].record.series, rows[i].record.series);
    }
    RowsDiffer(entries);
    forall i, j | 0 <= i < j < |rows| && rows[i].record.series == rows[j].record.series
      ensures rows[i].record.time < rows[j].record.time
    {
      RowsAscend(rows, i, j);
      assert DifferentKeys(rows[i], rows[j]);
      AscendInSeries(KeyOfRow(rows[i]), KeyOfRow(rows[j]));
    }
  }

  lemma {:induction false} SecondDecides<A(!new), B(!new)>(c: (A, A) -> Cmp, d: (B, B) -> Cmp, x: (A, B), y: (A, B))
    requires Lawful(c) && Pairs(c, d)(x, y) != Greater && x.0 == y.0
    ensures d(x.1, y.1) != Greater
  {
    assert c(x.0, y.0) == Equal;
  }

  lemma {:induction false} AscendInSeries(x: RowKey, y: RowKey)
    requires RowOrder()(x, y) != Greater && x.0 == y.0
    ensures x.1.0 <= y.1.0
  {
    hide SeriesOrder, Lawful;
    OrdersAreLawful();
    SecondDecides(SeriesOrder(), Pairs(Ints, Ints), x, y);
  }

  lemma {:induction false} RowsAscend(rows: seq<Entry>, i: nat, j: nat)
    requires i < j < |rows| && Sorted(rows, AtMost(By(KeyOfRow, RowOrder())))
    ensures RowOrder()(KeyOfRow(rows[i]), KeyOfRow(rows[j])) != Greater
  {
    assert AtMost(By(KeyOfRow, RowOrder()))(rows[i], rows[j]);
  }

  lemma {:induction false} RowsDiffer(entries: seq<Entry>)
    requires Pairwise(entries, DifferentKeys)
    ensures Pairwise(Rows(entries), DifferentKeys)
  {
    SortKeepsPairwise(entries, AtMost(By(KeyOfRow, RowOrder())), DifferentKeys);
  }

  predicate Ascends(a: string, b: string) {
    a != b && StringOrder.Leq(a, b)
  }

  /** Rows are ordered by host, then interface, then counter, then collector, then time, each where the parts before agree. */
  lemma {:induction false} RowsByParts(entries: seq<Entry>, i: nat, j: nat)
    requires i < j < |entries|
    ensures var a, b := Rows(entries)[i].record, Rows(entries)[j].record;
            var s, t := a.series, b.series;
            && (s.host == t.host || Ascends(s.host, t.host))
            && (s.host == t.host ==> s.interface == t.interface || Ascends(s.interface, t.interface))
            && (s.host == t.host && s.interface == t.interface ==> s.counter == t.counter || Ascends(s.counter, t.counter))
            && (s.host == t.host && s.interface == t.interface && s.counter == t.counter ==>
                  CollectorOrder()(KeyOfCollector(CollectorOf(s)), KeyOfCollector(CollectorOf(t))) != Greater)
            && (s == t ==> a.time <= b.time)
  {
    hide Rows, CollectorOrder, Lawful;
    var rows := Rows(entries);
    RowsInOrder(entries);
    RowsAscend(rows, i, j);
    var x, y := KeyOfRow(rows[i]), KeyOfRow(rows[j]);
    PairsFirst(SeriesOrder(), Pairs(Ints, Ints), x, y);
    PairsFirst(Strings, Pairs(Strings, Pairs(Strings, CollectorOrder())), x.0, y.0);
    PairsFirst(Strings, Pairs(Strings, CollectorOrder()), x.0.1, y.0.1);
    PairsFirst(Strings, CollectorOrder(), x.0.1.1, y.0.1.1);
    if rows[i].record.series == rows[j].record.series { AscendInSeries(x, y); }
  }

  /** What a comparison of pairs says about their parts. */
  lemma {:induction false} PairsFirst<A, B>(c: (A, A) -> Cmp, d: (B, B) -> Cmp, x: (A, B), y: (A, B))
    ensures Pairs(c, d)(x, y) != Greater ==> c(x.0, y.0) != Greater && (c(x.0, y.0) == Equal ==> d(x.1, y.1) != Greater)
  {
  }

  // ---------------------------------------------------------------- columns

  datatype Nic = Nic(node: nat, interface: string)

  datatype Flags = Flags(duplicateRemoved: bool, reordered: bool)

  datatype Batch = Batch(nodes: seq<string>, nics: seq<Nic>, counters: seq<string>, collectors: seq<Collector>,
                         nodeIds: seq<nat>, nicIds: seq<nat>, counterIds: seq<nat>, collectorIds: seq<nat>,
                         times: seq<int>, recordIds: seq<nat>, values: seq<nat>, flags: seq<Flags>)

  datatype BatchError = NoEvents | Conflict(index: nat) | IncomparableCollectors

  /** Python can order two collector keys unless they first differ where one has `None` and the other a value. */
  predicate Comparable(a: Collector, b: Collector) {
    || a.host != b.host || a.name != b.name
    || (a.rank != b.rank && a.rank.Some? && b.rank.Some?)
    || (a.rank == b.rank && (a.process == b.process || (a.process.Some? && b.process.Some?)))
  }

  predicate AllComparable(entries: seq<Entry>) {
    forall i, j :: 0 <= i < |entries| && 0 <= j < |entries|
                   ==> Comparable(CollectorOf(entries[i].record.series), CollectorOf(entries[j].record.series))
  }

  // ---------------------------------------------------------------- which keys Python can order

  /** Comparing two optional values: equal ones are equal, and `None` cannot be ordered with a value. */
  function PythonOptions<T(==)>(c: (T, T) -> Cmp, a: Option<T>, b: Option<T>): Option<Cmp> {
    if a == b then Some(Equal) else if a.Some? && b.Some? then Some(c(a.value, b.value)) else None
  }

  /** Tuple comparison: the first parts decide unless they are equal, and may already fail. */
  function PythonThen(first: Option<Cmp>, second: Option<Cmp>): Option<Cmp> {
    if first == Some(Equal) then second else first
  }

  /** How Python compares two collector keys: by host, name, rank and process, or not at all. */
  function PythonCompare(a: Collector, b: Collector): Option<Cmp> {
    PythonThen(Some(Strings(a.host, b.host)),
      PythonThen(Some(Strings(a.name, b.name)),
        PythonThen(PythonOptions(Ints, a.rank, b.rank), PythonOptions(Strings, a.process, b.process))))
  }

  /** The model refuses exactly the pairs that Python cannot compare, and orders all others as Python does. */
  lemma {:induction false} ComparableExactly(a: Collector, b: Collector)
    ensures Comparable(a, b) <==> PythonCompare(a, b).Some?
    ensures Comparable(a, b) ==> PythonCompare(a, b) == Some(CollectorOrder()(KeyOfCollector(a), KeyOfCollector(b)))
  {
    hide Strings, Ints, Lawful;
    StringsLawful();
    IntsLawful();
    StringsEqual(a.host, b.host);
    StringsEqual(a.name, b.name);
    var ranks, processes := Options(Ints), Options(Strings);
    OptionsAgree(Ints, a.rank, b.rank);
    OptionsAgree(Strings, a.process, b.process);
    assert Pairs(ranks, processes)((a.rank, a.process), (b.rank, b.process))
        == if ranks(a.rank, b.rank) == Equal then processes(a.process, b.process) else ranks(a.rank, b.rank);
  }

  lemma {:induction false} StringsEqual(a: string, b: string)
    ensures Strings(a, b) == Equal <==> a == b
  {
  }

  lemma {:induction false} OptionsAgree<T(!new)>(c: (T, T) -> Cmp, a: Option<T>, b: Option<T>)
    requires Lawful(c)
    ensures PythonOptions(c, a, b).Some? <==> a == b || (a.Some? && b.Some?)
    ensures PythonOptions(c, a, b).Some? ==> PythonOptions(c, a, b) == Some(Options(c)(a, b))
    ensures PythonOptions(c, a, b) == Some(Equal) <==> a == b
    ensures Options(c)(a, b) == Equal <==> a == b
  {
    if a.Some? && b.Some? { assert c(a.value, b.value) == Equal <==> a.value == b.value; }
  }

  ghost predicate AllOrdered(records: seq<Record>) {
    forall i, j :: 0 <= i < |records| && 0 <= j < |records|
                   ==> PythonCompare(CollectorOf(records[i].series), CollectorOf(records[j].series)).Some?
  }

  lemma {:induction false} KeptSeries(records: seq<Record>, k: nat) returns (i: nat)
    requires k < |records|
    ensures i < |Kept(records)| && Kept(records)[i].record.series == records[k].series
  {
    KeptHolds(records, k);
    i :| 0 <= i < |Kept(records)| && Holds(Kept(records)[i], records[k]);
  }

  lemma {:induction false} KeptSource(records: seq<Record>, i: nat) returns (k: nat)
    requires i < |Kept(records)|
    ensures k < |records| && records[k] == Kept(records)[i].record
  {
    KeptFromRecords(records, i);
    k :| 0 <= k < |records| && records[k] == Kept(records)[i].record;
  }

  /** The events can be ordered exactly when the collectors of all supplied ones can, folded or not. */
  lemma {:induction false} ComparableRecords(records: seq<Record>)
    ensures AllComparable(Kept(records)) <==> AllOrdered(records)
    ensures if AllOrdered(records) then BatchOf(Kept(records)).Ok? else BatchOf(Kept(records)) == Err(IncomparableCollectors)
  {
    hide Comparable, PythonCompare, Kept, CollectorOf, Columns, Rows, Marked;
    var kept := Kept(records);
    if AllComparable(kept) {
      forall i, j | 0 <= i < |records| && 0 <= j < |records|
        ensures PythonCompare(CollectorOf(records[i].series), CollectorOf(records[j].series)).Some?
      {
        var x := KeptSeries(records, i);
        var y := KeptSeries(records, j);
        ComparableExactly(CollectorOf(kept[x].record.series), CollectorOf(kept[y].record.series));
      }
    }
    if AllOrdered(records) {
      forall i, j | 0 <= i < |kept| && 0 <= j < |kept|
        ensures Comparable(CollectorOf(kept[i].record.series), CollectorOf(kept[j].record.series))
      {
        var x := KeptSource(records, i);
        var y := KeptSource(records, j);
        ComparableExactly(CollectorOf(records[x].series), CollectorOf(records[y].series));
      }
    }
  }

  /** Events are never refused when either all of their collectors or none have a rank, and likewise a process: those
      of one collector, those without either, and those of the raw extraction, which have a process and no rank. */
  lemma {:induction false} UniformCollectorsAccepted(records: seq<Record>)
    requires forall i, j :: 0 <= i < |records| && 0 <= j < |records| ==>
               && (records[i].series.rank.Some? <==> records[j].series.rank.Some?)
               && (records[i].series.process.Some? <==> records[j].series.process.Some?)
    ensures AllComparable(Kept(records)) && BatchOf(Kept(records)).Ok?
  {
    hide Kept, Columns, Rows, Marked, Strings, Comparable, AllComparable, BatchOf;
    ComparableRecords(records);
    forall i, j | 0 <= i < |records| && 0 <= j < |records|
      ensures PythonCompare(CollectorOf(records[i].series), CollectorOf(records[j].series)).Some?
    {
      var a, b := CollectorOf(records[i].series), CollectorOf(records[j].series);
      assert PythonOptions(Ints, a.rank, b.rank).Some? && PythonOptions(Strings, a.process, b.process).Some?;
    }
  }

  // ---------------------------------------------------------------- identifier tables

  function Map<T, U>(s: seq<T>, f: T -> U): (r: seq<U>)
    ensures |r| == |s| && forall i :: 0 <= i < |s| ==> r[i] == f(s[i])
  {
    seq(|s|, i requires 0 <= i < |s| => f(s[i]))
  }

  /** Identifier lookup; a missing key stands for an identifier that no table has. */
  function IdOf<T(==)>(table: seq<T>, x: T): nat {
    if x in table then IndexOf(table, x) else |table|
  }

  function Host(e: Entry): string { e.record.series.host }
  function Counter(e: Entry): string { e.record.series.counter }
  function CollectorIn(e: Entry): Collector { CollectorOf(e.record.series) }
  function HostAndInterface(e: Entry): (string, string) { (e.record.series.host, e.record.series.interface) }

  function NodeTable(rows: seq<Entry>): seq<string> {
    Table(Map(rows, Host), Strings)
  }

  function NicTable(rows: seq<Entry>): seq<Nic> {
    Map(Table(Map(rows, HostAndInterface), Pairs(Strings, Strings)), (k: (string, string)) => Nic(IdOf(NodeTable(rows), k.0), k.1))
  }

  function CounterTable(rows: seq<Entry>): seq<string> {
    Table(Map(rows, Counter), Strings)
  }

  function CollectorTable(rows: seq<Entry>): seq<Collector> {
    Table(Map(rows, CollectorIn), By(KeyOfCollector, CollectorOrder()))
  }

  function Columns(rows: seq<Entry>): Batch {
    var nodes, nics, counters, collectors := NodeTable(rows), NicTable(rows), CounterTable(rows), CollectorTable(rows);
    Batch(nodes, nics, counters, collectors,
          Map(rows, (e: Entry) => IdOf(nodes, Host(e))),
          Map(rows, (e: Entry) => IdOf(nics, Nic(IdOf(nodes, Host(e)), e.record.series.interface))),
          Map(rows, (e: Entry) => IdOf(counters, Counter(e))),
          Map(rows, (e: Entry) => IdOf(collectors, CollectorIn(e))),
          Map(rows, (e: Entry) => e.record.time), Map(rows, (e: Entry) => e.record.index), Map(rows, (e: Entry) => e.record.value),
          Map(rows, (e: Entry) => Flags(e.duplicates != [], e.reordered)))
  }

  /** The batch of kept entries, in arrival order. */
  function BatchOf(entries: seq<Entry>): Result<Batch, BatchError> {
    if !AllComparable(entries) then Err(IncomparableCollectors) else Ok(Columns(Rows(Marked(entries))))
  }

  /** Row `i` has an identifier for each table, and reads back as `r`. */
  predicate RowReads(b: Batch, i: nat, r: Record) {
    && i < |b.nodeIds| == |b.nicIds| == |b.counterIds| == |b.collectorIds| == |b.times| == |b.recordIds| == |b.values|
    && b.nodeIds[i] < |b.nodes| && b.nicIds[i] < |b.nics| && b.counterIds[i] < |b.counters| && b.collectorIds[i] < |b.collectors|
    && var nic, collector := b.nics[b.nicIds[i]], b.collectors[b.collectorIds[i]];
       && nic.node == b.nodeIds[i] && collector.host == b.nodes[b.nodeIds[i]]
       && r == Record(b.recordIds[i],
                      Series(b.nodes[b.nodeIds[i]], nic.interface, b.counters[b.counterIds[i]], collector.name, collector.rank, collector.process),
                      b.times[i], b.values[i])
  }

  lemma {:induction false} CollectorsLawful()
    ensures Lawful(By(KeyOfCollector, CollectorOrder()))
  {
    hide CollectorOrder, Lawful;
    OrdersAreLawful();
    ByLawful(KeyOfCollector, CollectorOrder());
  }

  lemma {:induction false} InTables(rows: seq<Entry>, i: nat)
    requires i < |rows|
    ensures Host(rows[i]) in NodeTable(rows) && Counter(rows[i]) in CounterTable(rows) && CollectorIn(rows[i]) in CollectorTable(rows)
    ensures Nic(IdOf(NodeTable(rows), Host(rows[i])), rows[i].record.series.interface) in NicTable(rows)
  {
    hide Table, Lawful, Strings, Pairs, By, IdOf;
    StringsLawful();
    PairsLawful(Strings, Strings);
    CollectorsLawful();
    assert Map(rows, Host)[i] in Map(rows, Host);
    assert Map(rows, Counter)[i] in Map(rows, Counter);
    assert Map(rows, CollectorIn)[i] in Map(rows, CollectorIn);
    assert Map(rows, HostAndInterface)[i] in Map(rows, HostAndInterface);
    TableHolds(Map(rows, Host), Strings);
    TableHolds(Map(rows, Counter), Strings);
    TableHolds(Map(rows, CollectorIn), By(KeyOfCollector, CollectorOrder()));
    TableHolds(Map(rows, HostAndInterface), Pairs(Strings, Strings));
    var keys := Table(Map(rows, HostAndInterface), Pairs(Strings, Strings));
    var k :| 0 <= k < |keys| && keys[k] == HostAndInterface(rows[i]);
    assert NicTable(rows)[k] == Nic(IdOf(NodeTable(rows), keys[k].0), keys[k].1);
  }

  /** Every row of the columns reads back as the record it was made from. */
  lemma {:induction false} ColumnsRead(rows: seq<Entry>, i: nat)
    requires i < |rows|
    ensures RowReads(Columns(rows), i, rows[i].record)
    ensures Columns(rows).flags[i] == Flags(rows[i].duplicates != [], rows[i].reordered)
  {
    hide NodeTable, NicTable, CounterTable, CollectorTable, IndexOf;
    InTables(rows, i);
  }

  // ---------------------------------------------------------------- the batch is lossless

  lemma {:induction false} IndicesSame(a: seq<Entry>, b: seq<Entry>)
    requires |a| == |b| && forall i :: 0 <= i < |a| ==> a[i].record == b[i].record && a[i].duplicates == b[i].duplicates
    ensures Indices(a) == Indices(b)
  {
    if a != [] { IndicesSame(a[1..], b[1..]); }
  }

  lemma {:induction false} IndicesInsert(e: Entry, s: seq<Entry>, le: (Entry, Entry) -> bool)
    ensures multiset(Indices(Insert(e, s, le))) == multiset(Indices([e] + s))
  {
    hide Indices;
    if !(s == [] || le(e, s[0])) {
      IndicesInsert(e, s[1..], le);
      assert s == [s[0]] + s[1..];
      IndicesCons(e, s);
      IndicesCons(s[0], s[1..]);
      IndicesCons(e, s[1..]);
      IndicesCons(s[0], Insert(e, s[1..], le));
    }
  }

  lemma {:induction false} IndicesSort(s: seq<Entry>, le: (Entry, Entry) -> bool)
    ensures multiset(Indices(Sort(s, le))) == multiset(Indices(s))
  {
    hide Indices, Insert;
    if s != [] {
      IndicesSort(s[1..], le);
      IndicesInsert(s[0], Sort(s[1..], le), le);
      assert s == [s[0]] + s[1..];
      IndicesCons(s[0], s[1..]);
      IndicesCons(s[0], Sort(s[1..], le));
    }
  }

  /** The batch of conflict-free events whose collectors can be ordered loses nothing: every row reads back as a kept record, every source index
      appears exactly as often as it was supplied, and each series is one block with increasing timestamps. */
  lemma {:induction false} BatchIsLossless(records: seq<Record>)
    requires !Conflicting(records) && AllOrdered(records)
    ensures var rows := Rows(Marked(Kept(records)));
            && BatchOf(Kept(records)) == Ok(Columns(rows))
            && multiset(rows) == multiset(Marked(Kept(records)))
            && multiset(Indices(rows)) == multiset(Sources(records))
            && Contiguous(rows) && TimesIncrease(rows)
            && forall i :: 0 <= i < |rows| ==> RowReads(Columns(rows), i, rows[i].record)
  {
    hide Kept, Indices, Columns, RowReads, Sort, RowOrder, Contiguous, TimesIncrease, AllOrdered, AllComparable;
    var kept := Kept(records);
    var marked := Marked(kept);
    ComparableRecords(records);
    KeptKeys(records);
    KeptIndices(records);
    IndicesSame(kept, marked);
    IndicesSort(marked, AtMost(By(KeyOfRow, RowOrder())));
    RowsInOrder(marked);
    assert Pairwise(marked, DifferentKeys) by {
      forall i, j | 0 <= i < j < |marked| ensures DifferentKeys(marked[i], marked[j]) { assert DifferentKeys(kept[i], kept[j]); }
    }
    SeriesAreBlocks(marked);
    forall i | 0 <= i < |Rows(marked)| ensures RowReads(Columns(Rows(marked)), i, Rows(marked)[i].record) {
      ColumnsRead(Rows(marked), i);
    }
  }
}
