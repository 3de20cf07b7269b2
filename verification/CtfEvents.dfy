/**
 The mutable event records of the adapter: duplicates are folded into the first record of their key and
 out-of-order series are marked in place, before the batch is built.
 */
module CtfEvents {
  import opened Wrappers
  import opened Sorting
  import opened CtfBatch

  class ParsedEvent {
    const record: Record
    var duplicate: bool
    var duplicateIndices: seq<nat>
    var reordered: bool

    constructor (r: Record)
      ensures record == r && View() == Entry(r, [], false) && Valid()
    {
      record := r;
      duplicate, duplicateIndices, reordered := false, [], false;
    }

    predicate Valid()
      reads this
    {
      duplicate <==> duplicateIndices != []
    }

    function View(): Entry
      reads this
    {
      Entry(record, duplicateIndices, reordered)
    }

    /** Notes the source index of one more exact duplicate. */
    method NoteDuplicate(index: nat)
      modifies this
      ensures Valid() && View() == Entry(record, old(duplicateIndices) + [index], old(reordered))
    {
      duplicate := true;
      duplicateIndices := duplicateIndices + [index];
    }
  }

  predicate DistinctObjects(events: seq<ParsedEvent>) {
    forall i, j :: 0 <= i < j < |events| ==> events[i] != events[j]
  }

  function Records(events: seq<ParsedEvent>): (r: seq<Record>)
    ensures |r| == |events| && forall i :: 0 <= i < |r| ==> r[i] == events[i].record
  {
    seq(|events|, i requires 0 <= i < |events| => events[i].record)
  }

  function Views(events: seq<ParsedEvent>): (r: seq<Entry>)
    reads events
    ensures |r| == |events| && forall i :: 0 <= i < |r| ==> r[i] == events[i].View()
  {
    seq(|events|, i requires 0 <= i < |events| reads events => events[i].View())
  }

  /** Just parsed: no duplicates noted and no mark. */
  predicate Untouched(e: ParsedEvent)
    reads e
  {
    e.View() == Entry(e.record, [], false) && e.Valid()
  }

  predicate Lists(seen: map<(Series, int), ParsedEvent>, kept: seq<ParsedEvent>) {
    && (forall k :: 0 <= k < |kept| ==> (kept[k].record.series, kept[k].record.time) in seen)
    && (forall key :: key in seen ==> seen[key] in kept && (seen[key].record.series, seen[key].record.time) == key)
  }

  lemma {:induction false} Found(seen: map<(Series, int), ParsedEvent>, kept: seq<ParsedEvent>, views: seq<Entry>, r: Record)
    requires Lists(seen, kept) && |views| == |kept| && Pairwise(views, DifferentKeys)
    requires forall i :: 0 <= i < |kept| ==> views[i].record == kept[i].record
    ensures (r.series, r.time) in seen <==> Position(views, r).Some?
    ensures (r.series, r.time) in seen ==> seen[(r.series, r.time)] == kept[Position(views, r).value]
  {
  }

  lemma {:induction false} Added(seen: map<(Series, int), ParsedEvent>, kept: seq<ParsedEvent>, events: seq<ParsedEvent>, n: nat)
    requires Lists(seen, kept) && DistinctObjects(kept) && DistinctObjects(events) && n < |events|
    requires forall e :: e in kept ==> e in events[..n]
    ensures var e := events[n];
            (e.record.series, e.record.time) !in seen ==>
              Lists(seen[(e.record.series, e.record.time) := e], kept + [e]) && DistinctObjects(kept + [e])
  {
    assert forall k :: 0 <= k < |kept| ==> kept[k] in kept;
  }

  /** The event at `index` is the first that contradicts an earlier one. */
  predicate FirstConflict(records: seq<Record>, index: nat) {
    index < |records| && Conflicting(records[..index + 1]) && !Conflicting(records[..index])
  }

  /** What has been folded from the first `n` events. */
  ghost predicate Folded(events: seq<ParsedEvent>, n: nat, seen: map<(Series, int), ParsedEvent>, kept: seq<ParsedEvent>)
    requires n <= |events|
    reads kept
  {
    && DistinctObjects(kept) && Lists(seen, kept)
    && (forall e :: e in kept ==> e in events[..n] && e.Valid())
    && Views(kept) == Kept(Records(events)[..n]) && !Conflicting(Records(events)[..n])
  }

  /** Folds exact duplicates into the first record of their key, and fails at the first event that contradicts an
      earlier one. */
  method RemoveExactDuplicates(events: seq<ParsedEvent>) returns (r: Result<seq<ParsedEvent>, BatchError>)
    requires DistinctObjects(events) && forall e :: e in events ==> Untouched(e)
    modifies events
    ensures r.Ok? <==> !Conflicting(Records(events))
    ensures r.Err? ==> r.error.Conflict? && FirstConflict(Records(events), r.error.index)
    ensures r.Ok? ==> DistinctObjects(r.value) && Views(r.value) == Kept(Records(events))
    ensures r.Ok? ==> forall e :: e in r.value ==> e in events && e.Valid()
  {
    hide Conflicting, Kept, Position, Lists, FirstConflict, Folded, Pairwise;
    var seen: map<(Series, int), ParsedEvent> := map[];
    var kept: seq<ParsedEvent> := [];
    Nothing(events);
    var n := 0;
    while n < |events|
      invariant 0 <= n <= |events| && Folded(events, n, seen, kept)
      invariant forall j :: n <= j < |events| ==> Untouched(events[j])
    {
      var event := events[n];
      var key := (event.record.series, event.record.time);
      FoldStep(events, n, seen, kept);
      if key !in seen {
        seen := seen[key := event];
        kept := kept + [event];
      } else {
        var previous := seen[key];
        if previous.record.value != event.record.value {
          return Err(Conflict(n));
        }
        ghost var before := Views(kept);
        ghost var p := Position(before, event.record).value;
        previous.NoteDuplicate(event.record.index);
        FoldDuplicate(events, n, seen, kept, before, p);
      }
      n := n + 1;
    }
    AllFolded(events, seen, kept);
    r := Ok(kept);
  }

  lemma {:induction false} Nothing(events: seq<ParsedEvent>)
    ensures Folded(events, 0, map[], [])
  {
  }

  lemma {:induction false} AllFolded(events: seq<ParsedEvent>, seen: map<(Series, int), ParsedEvent>, kept: seq<ParsedEvent>)
    requires Folded(events, |events|, seen, kept)
    ensures DistinctObjects(kept) && Views(kept) == Kept(Records(events)) && !Conflicting(Records(events))
    ensures forall e :: e in kept ==> e in events && e.Valid()
  {
    assert Records(events)[..|events|] == Records(events) && events[..|events|] == events;
  }

  /** One more event: a new key is kept, a known key names the kept record it must agree with. */
  lemma {:induction false} FoldStep(events: seq<ParsedEvent>, n: nat, seen: map<(Series, int), ParsedEvent>, kept: seq<ParsedEvent>)
    requires n < |events| && DistinctObjects(events) && Folded(events, n, seen, kept) && Untouched(events[n])
    ensures Lists(seen, kept) && DistinctObjects(kept) && forall e :: e in kept ==> e in events[..n] && e.Valid()
    ensures var e := events[n];
            var key := (e.record.series, e.record.time);
            var p := Position(Views(kept), e.record);
            if key !in seen then Folded(events, n + 1, seen[key := e], kept + [e])
            else p.Some? && p.value < |kept| && seen[key] == kept[p.value] && seen[key] in events[..n] && seen[key] != e
                 && (seen[key].record.value != e.record.value ==>
                       FirstConflict(Records(events), n) && Conflicting(Records(events)))
                 && (seen[key].record.value == e.record.value ==>
                       !Conflicting(Records(events)[..n + 1])
                       && Kept(Records(events)[..n + 1]) ==
                            Views(kept)[p.value := Views(kept)[p.value].(duplicates := Views(kept)[p.value].duplicates + [e.record.index])])
  {
    hide Conflicting, Kept, Position, Lists;
    var records := Records(events);
    var e := events[n];
    KeptKeys(records[..n]);
    Found(seen, kept, Views(kept), e.record);
    ConflictStep(records[..n], records[n]);
    KeptSnoc(records[..n], records[n]);
    assert records[..n + 1] == records[..n] + [records[n]];
    Added(seen, kept, events, n);
    if (e.record.series, e.record.time) !in seen {
      assert Views(kept + [e]) == Views(kept) + [e.View()];
      assert events[..n + 1] == events[..n] + [e];
    } else if Conflicting(records[..n + 1]) {
      Prefix(records, n + 1);
    }
  }

  lemma {:induction false} FoldDuplicate(events: seq<ParsedEvent>, n: nat, seen: map<(Series, int), ParsedEvent>, kept: seq<ParsedEvent>,
                                         before: seq<Entry>, p: nat)
    requires n < |events| && DistinctObjects(kept) && Lists(seen, kept)
    requires forall e :: e in kept ==> e in events[..n] && e.Valid()
    requires p < |kept| == |before| && forall k :: 0 <= k < |kept| && k != p ==> kept[k].View() == before[k]
    requires kept[p].View() == before[p].(duplicates := before[p].duplicates + [events[n].record.index])
    requires !Conflicting(Records(events)[..n + 1])
    requires Kept(Records(events)[..n + 1]) == before[p := before[p].(duplicates := before[p].duplicates + [events[n].record.index])]
    ensures Folded(events, n + 1, seen, kept)
  {
  }

  lemma {:induction false} Prefix(records: seq<Record>, n: nat)
    requires n <= |records| && Conflicting(records[..n])
    ensures Conflicting(records)
  {
    var i, j :| 0 <= i < j < n && SameKey(records[i], records[j]) && records[i].value != records[j].value;
  }

  // ---------------------------------------------------------------- marking out-of-order series

  /** The events of one series, in arrival order. */
  function OfSeries(events: seq<ParsedEvent>, s: Series): seq<ParsedEvent> {
    if events == [] then []
    else OfSeries(events[..|events| - 1], s) + if events[|events| - 1].record.series == s then [events[|events| - 1]] else []
  }

  function Times(events: seq<ParsedEvent>): (r: seq<int>)
    ensures |r| == |events| && forall i :: 0 <= i < |r| ==> r[i] == events[i].record.time
  {
    seq(|events|, i requires 0 <= i < |events| => events[i].record.time)
  }

  lemma {:induction false} OfSeriesMember(events: seq<ParsedEvent>, s: Series, e: ParsedEvent)
    ensures e in OfSeries(events, s) <==> e in events && e.record.series == s
  {
    if events != [] {
      OfSeriesMember(events[..|events| - 1], s, e);
      assert events == events[..|events| - 1] + [events[|events| - 1]];
    }
  }

  lemma {:induction false} OfSeriesTimes(events: seq<ParsedEvent>, s: Series)
    ensures Times(OfSeries(events, s)) == TimesOf(Records(events), s)
  {
    if events != [] {
      var n := |events| - 1;
      OfSeriesTimes(events[..n], s);
      assert Records(events)[..n] == Records(events[..n]);
    }
  }

  method AnyInverted(timestamps: seq<int>) returns (inverted: bool)
    ensures inverted <==> Inverted(timestamps)
  {
    var index := 1;
    while index < |timestamps|
      invariant forall i :: 1 <= i < index && i < |timestamps| ==> timestamps[i] >= timestamps[i - 1]
      invariant index >= 1
    {
      if timestamps[index] < timestamps[index - 1] { return true; }
      index := index + 1;
    }
    return false;
  }

  method MarkAll(stream: seq<ParsedEvent>)
    modifies stream
    ensures forall e :: e in stream ==> e.reordered
    ensures forall e :: e in stream ==> e.duplicate == old(e.duplicate) && e.duplicateIndices == old(e.duplicateIndices)
  {
    for i := 0 to |stream|
      invariant forall e :: e in stream[..i] ==> e.reordered
      invariant forall e :: e in stream ==> e.duplicate == old(e.duplicate) && e.duplicateIndices == old(e.duplicateIndices)
    {
      stream[i].reordered := true;
    }
  }

  ghost predicate Streams(streams: map<Series, seq<ParsedEvent>>, order: seq<Series>, events: seq<ParsedEvent>) {
    && (forall s :: s in order <==> s in streams)
    && (forall s :: s in streams ==> streams[s] == OfSeries(events, s))
    && (forall i :: 0 <= i < |events| ==> events[i].record.series in streams)
  }

  lemma {:induction false} OfSeriesSnoc(events: seq<ParsedEvent>, n: nat, s: Series)
    requires n < |events|
    ensures OfSeries(events[..n + 1], s) == OfSeries(events[..n], s) + if events[n].record.series == s then [events[n]] else []
  {
    assert events[..n + 1][..n] == events[..n];
  }

  lemma {:induction false} NoneOfSeries(events: seq<ParsedEvent>, s: Series)
    requires forall i :: 0 <= i < |events| ==> events[i].record.series != s
    ensures OfSeries(events, s) == []
  {
    if events != [] { NoneOfSeries(events[..|events| - 1], s); }
  }

  lemma {:induction false} StreamsSnoc(streams: map<Series, seq<ParsedEvent>>, order: seq<Series>, events: seq<ParsedEvent>, n: nat)
    requires n < |events| && Streams(streams, order, events[..n])
    ensures var e := events[n];
            var s := e.record.series;
            if s in streams then Streams(streams[s := streams[s] + [e]], order, events[..n + 1])
            else Streams(streams[s := [e]], order + [s], events[..n + 1])
  {
    hide OfSeries;
    var s := events[n].record.series;
    forall t ensures OfSeries(events[..n + 1], t) == OfSeries(events[..n], t) + if s == t then [events[n]] else [] {
      OfSeriesSnoc(events, n, t);
    }
    if s !in streams { NoneOfSeries(events[..n], s); }
  }

  /** What an event looks like once the series in `done` have been checked. */
  predicate MarkedFor(view: Entry, before: Entry, records: seq<Record>, done: seq<Series>) {
    view == before.(reordered := before.reordered || (before.record.series in done && Inverted(TimesOf(records, before.record.series))))
  }

  /** Marks every event of each series that arrived out of time order, and changes nothing else. */
  method MarkReordering(events: seq<ParsedEvent>)
    requires DistinctObjects(events) && forall e :: e in events ==> e.Valid()
    modifies events
    ensures Views(events) == Marked(old(Views(events)))
    ensures forall e :: e in events ==> e.Valid()
  {
    hide Streams, OfSeries, Inverted, TimesOf, MarkedFor, Marked;
    ghost var before := Views(events);
    ghost var records := Records(events);
    var streams, order := Group(events);
    StartMarking(events, before, records);
    var k := 0;
    while k < |order|
      invariant 0 <= k <= |order|
      invariant forall i :: 0 <= i < |events| ==> MarkedFor(events[i].View(), before[i], records, order[..k]) && events[i].Valid()
    {
      StreamOf(events, streams, order, k);
      var stream := streams[order[k]];
      var inverted := AnyInverted(Times(stream));
      label L:
      if inverted { MarkAll(stream); }
      forall i | 0 <= i < |events| ensures MarkedFor(events[i].View(), before[i], records, order[..k + 1]) && events[i].Valid() {
        ghost var middle := old@L(events[i].View());
        assert MarkedFor(middle, before[i], records, order[..k]) && old@L(events[i].Valid()) && events[i] in events;
        if events[i] !in stream || !inverted {
          assert events[i].View() == middle;
        }
        MarkOne(events[i].View(), before[i], middle, records, order, k, inverted);
      }
      k := k + 1;
    }
    AllMarked(events, before, records, streams, order);
  }

  method Group(events: seq<ParsedEvent>) returns (streams: map<Series, seq<ParsedEvent>>, order: seq<Series>)
    ensures Streams(streams, order, events)
  {
    streams, order := map[], [];
    assert Streams(streams, order, events[..0]);
    hide Streams;
    for n := 0 to |events|
      invariant Streams(streams, order, events[..n])
    {
      StreamsSnoc(streams, order, events, n);
      var s := events[n].record.series;
      if s in streams {
        streams := streams[s := streams[s] + [events[n]]];
      } else {
        streams, order := streams[s := [events[n]]], order + [s];
      }
    }
    assert events[..|events|] == events;
  }

  lemma {:induction false} StartMarking(events: seq<ParsedEvent>, before: seq<Entry>, records: seq<Record>)
    requires before == Views(events)
    ensures forall i :: 0 <= i < |events| ==> MarkedFor(events[i].View(), before[i], records, [])
  {
  }

  lemma {:induction false} StreamOf(events: seq<ParsedEvent>, streams: map<Series, seq<ParsedEvent>>, order: seq<Series>, k: nat)
    requires Streams(streams, order, events) && k < |order|
    ensures order[k] in streams
    ensures forall e :: e in streams[order[k]] <==> e in events && e.record.series == order[k]
    ensures Times(streams[order[k]]) == TimesOf(Records(events), order[k])
  {
    var s := order[k];
    forall e ensures e in streams[s] <==> e in events && e.record.series == s { OfSeriesMember(events, s, e); }
    OfSeriesTimes(events, s);
  }

  lemma {:induction false} MarkOne(view: Entry, before: Entry, middle: Entry, records: seq<Record>, order: seq<Series>, k: nat, inverted: bool)
    requires k < |order| && (inverted <==> Inverted(TimesOf(records, order[k]))) && MarkedFor(middle, before, records, order[..k])
    requires view == middle.(reordered := middle.reordered || (inverted && middle.record.series == order[k]))
    ensures MarkedFor(view, before, records, order[..k + 1])
  {
    assert order[..k + 1] == order[..k] + [order[k]];
  }

  lemma {:induction false} AllMarked(events: seq<ParsedEvent>, before: seq<Entry>, records: seq<Record>,
                                     streams: map<Series, seq<ParsedEvent>>, order: seq<Series>)
    requires |before| == |events| && records == Records(events) == RecordsOf(before) && Streams(streams, order, events)
    requires forall i :: 0 <= i < |events| ==> MarkedFor(events[i].View(), before[i], records, order[..|order|])
    ensures Views(events) == Marked(before)
  {
    assert order[..|order|] == order;
  }

  // ---------------------------------------------------------------- the adapter

  lemma {:induction false} MarkingKeepsSeries(entries: seq<Entry>)
    ensures AllComparable(Marked(entries)) <==> AllComparable(entries)
  {
  }

  /** Marks, sorts and lays out the kept events; fails when Python could not order their collector keys. */
  method BuildBatch(events: seq<ParsedEvent>) returns (r: Result<Batch, BatchError>)
    requires DistinctObjects(events) && forall e :: e in events ==> e.Valid()
    modifies events
    ensures r == BatchOf(old(Views(events)))
  {
    hide Marked, Columns, Rows, AllComparable;
    MarkingKeepsSeries(Views(events));
    MarkReordering(events);
    var entries := Views(events);
    if !AllComparable(entries) { return Err(IncomparableCollectors); }
    r := Ok(Columns(Rows(entries)));
  }

  /** The whole conversion of parsed events. */
  method Normalize(events: seq<ParsedEvent>) returns (r: Result<Batch, BatchError>)
    requires DistinctObjects(events) && forall e :: e in events ==> Untouched(e)
    modifies events
    ensures events == [] ==> r == Err(NoEvents)
    ensures events != [] && Conflicting(Records(events)) ==>
              r.Err? && r.error.Conflict? && FirstConflict(Records(events), r.error.index)
    ensures events != [] && !Conflicting(Records(events)) ==> r == BatchOf(Kept(Records(events)))
  {
    hide Conflicting, Kept, FirstConflict, BatchOf;
    if events == [] { return Err(NoEvents); }
    var deduplicated := RemoveExactDuplicates(events);
    if deduplicated.Err? { return Err(deduplicated.error); }
    var kept := deduplicated.value;
    assert forall i :: 0 <= i < |kept| ==> kept[i] in kept;
    r := BuildBatch(kept);
  }
}
