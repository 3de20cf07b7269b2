/** What the quality flags of a batch say about the supplied events, duplicates included. */
module CtfFlags {
  import opened Wrappers
  import opened CtfBatch

  /** No earlier event has the key of event `k`. */
  predicate FirstOfKey(records: seq<Record>, k: nat) {
    k < |records| && forall j :: 0 <= j < k ==> !SameKey(records[j], records[k])
  }

  predicate Known(records: seq<Record>, r: Record) {
    exists i :: 0 <= i < |records| && SameKey(records[i], r)
  }

  /** The key was reported at least twice. */
  predicate Repeated(records: seq<Record>, r: Record) {
    exists i, j :: 0 <= i < j < |records| && SameKey(records[i], r) && SameKey(records[j], r)
  }

  predicate Newer(records: seq<Record>, s: Series, time: int) {
    exists i :: 0 <= i < |records| && records[i].series == s && time < records[i].time
  }

  predicate Late(records: seq<Record>, s: Series, j: nat) {
    FirstOfKey(records, j) && records[j].series == s && Newer(records[..j], s, records[j].time)
  }

  /** An event of the series, not a duplicate, came after a newer event of the series. */
  ghost predicate LateArrival(records: seq<Record>, s: Series) {
    exists j: nat :: Late(records, s, j)
  }

  // ---------------------------------------------------------------- one more event

  lemma {:induction false} FirstSnoc(records: seq<Record>, r: Record, k: nat)
    ensures FirstOfKey(records + [r], k) <==> if k == |records| then !Known(records, r) else FirstOfKey(records, k)
  {
    var after := records + [r];
    assert forall i :: 0 <= i < |records| ==> after[i] == records[i];
    assert after[|records|] == r;
  }

  lemma {:induction false} LateSnoc(records: seq<Record>, r: Record, s: Series)
    ensures LateArrival(records + [r], s) <==> LateArrival(records, s) || (!Known(records, r) && r.series == s && Newer(records, s, r.time))
  {
    hide FirstOfKey, Known, Newer;
    var after, n := records + [r], |records|;
    forall j: nat
      ensures Late(records, s, j) ==> j < n
      ensures Late(after, s, j) <==> if j == n then !Known(records, r) && r.series == s && Newer(records, s, r.time) else Late(records, s, j)
    {
      FirstSnoc(records, r, j);
      BelowLength(records, j);
      if j == n {
        assert after[..n] == records && after[n] == r;
      } else if j < n {
        assert after[..j] == records[..j] && after[j] == records[j];
      }
    }
    assert Late(after, s, n) <==> !Known(records, r) && r.series == s && Newer(records, s, r.time);
  }

  lemma {:induction false} BelowLength(records: seq<Record>, k: nat)
    ensures FirstOfKey(records, k) ==> k < |records|
  {
  }

  lemma {:induction false} RepeatedSnoc(records: seq<Record>, r: Record, x: Record)
    ensures Repeated(records + [r], x) <==> Repeated(records, x) || (SameKey(r, x) && Known(records, x))
    ensures Known(records + [r], x) <==> Known(records, x) || SameKey(r, x)
  {
    var after := records + [r];
    assert forall i :: 0 <= i < |records| ==> after[i] == records[i];
    assert after[|records|] == r;
    if i, j :| 0 <= i < j < |records| && SameKey(records[i], x) && SameKey(records[j], x) {
      assert SameKey(after[i], x) && SameKey(after[j], x);
    }
  }

  // ---------------------------------------------------------------- what is kept

  lemma {:induction false} KnownIsKept(records: seq<Record>, r: Record)
    ensures Position(Kept(records), r).Some? <==> Known(records, r)
  {
    hide Kept, Position;
    if i :| 0 <= i < |records| && SameKey(records[i], r) {
      var k := KeptOfKey(records, i);
      assert SameKey(Kept(records)[k].record, r);
    }
    if Position(Kept(records), r).Some? {
      var k := KeptSource(records, Position(Kept(records), r).value);
      assert SameKey(records[k], r);
    }
  }

  lemma {:induction false} KeptOfKey(records: seq<Record>, i: nat) returns (k: nat)
    requires i < |records|
    ensures k < |Kept(records)| && SameKey(Kept(records)[k].record, records[i])
  {
    KeptHolds(records, i);
    k :| 0 <= k < |Kept(records)| && Holds(Kept(records)[k], records[i]);
  }

  /** A kept record is the first of its key, and has duplicates exactly when the key was repeated. */
  lemma {:induction false} KeptIsFirst(records: seq<Record>, i: nat)
    requires i < |Kept(records)|
    ensures exists k: nat :: k < |records| && FirstOfKey(records, k) && records[k] == Kept(records)[i].record
    ensures Kept(records)[i].duplicates != [] <==> Repeated(records, Kept(records)[i].record)
  {
    hide FirstOfKey, Known, Repeated, Position;
    var n := |records| - 1;
    var earlier, r := records[..n], records[n];
    var before := Kept(earlier);
    var e := Kept(records)[i];
    var p := Position(before, r);
    assert records == earlier + [r];
    KnownIsKept(earlier, r);
    RepeatedSnoc(earlier, r, e.record);
    if i < |before| {
      KeptIsFirst(earlier, i);
      var k: nat :| k < |earlier| && FirstOfKey(earlier, k) && earlier[k] == before[i].record;
      FirstSnoc(earlier, r, k);
      assert FirstOfKey(records, k) && records[k] == e.record;
      KnownIsKept(earlier, e.record);
      Alone(earlier, r, i);
    } else {
      FirstSnoc(earlier, r, n);
      assert FirstOfKey(records, n) && records[n] == e.record;
      OnlyOnce(earlier, r);
    }
  }

  lemma {:induction false} OnlyOnce(records: seq<Record>, r: Record)
    ensures Repeated(records, r) ==> Known(records, r)
  {
  }

  /** The entry of a known key is the only one with this key. */
  lemma {:induction false} Alone(records: seq<Record>, r: Record, i: nat)
    requires i < |Kept(records)|
    ensures Known(records, Kept(records)[i].record)
    ensures Position(Kept(records), r) == Some(i) <==> SameKey(r, Kept(records)[i].record)
  {
    hide Kept;
    KeptKeys(records);
    var k := KeptSource(records, i);
    assert SameKey(records[k], Kept(records)[i].record);
    var kept, p := Kept(records), Position(Kept(records), r);
    if p.Some? && p.value != i { assert DifferentKeys(kept[if p.value < i then p.value else i], kept[if p.value < i then i else p.value]); }
  }

  // ---------------------------------------------------------------- the mark

  lemma {:induction false} TimesOfSnoc(records: seq<Record>, r: Record, s: Series)
    ensures TimesOf(records + [r], s) == TimesOf(records, s) + if r.series == s then [r.time] else []
  {
    assert (records + [r])[..|records|] == records;
  }

  lemma {:induction false} NewerTimes(records: seq<Record>, s: Series, t: int)
    ensures Newer(records, s, t) <==> exists i :: 0 <= i < |TimesOf(records, s)| && t < TimesOf(records, s)[i]
  {
    if records != [] {
      var n := |records| - 1;
      assert records == records[..n] + [records[n]];
      NewerTimes(records[..n], s, t);
      NewerSnoc(records[..n], records[n], s, t);
      TimesOfSnoc(records[..n], records[n], s);
      hide TimesOf, Newer;
      var ts := TimesOf(records[..n], s);
      assert forall i :: 0 <= i < |ts| ==> TimesOf(records, s)[i] == ts[i];
      assert records[n].series == s ==> TimesOf(records, s)[|ts|] == records[n].time;
    }
  }

  lemma {:induction false} NewerSnoc(records: seq<Record>, r: Record, s: Series, t: int)
    ensures Newer(records + [r], s, t) <==> Newer(records, s, t) || (r.series == s && t < r.time)
  {
    var after := records + [r];
    assert forall i :: 0 <= i < |records| ==> after[i] == records[i];
    assert after[|records|] == r;
  }

  lemma {:induction false} InvertedSnoc(times: seq<int>, t: int)
    ensures Inverted(times + [t]) <==> Inverted(times) || exists i :: 0 <= i < |times| && t < times[i]
  {
    InvertedIffUnsorted(times);
    InvertedIffUnsorted(times + [t]);
    var after := times + [t];
    assert forall i :: 0 <= i < |times| ==> after[i] == times[i];
    assert after[|times|] == t;
    if i :| 0 <= i < |times| && t < times[i] { assert after[|times|] < after[i]; }
    if i, j :| 0 <= i < j < |times| && times[j] < times[i] { assert after[j] < after[i]; }
  }

  /** The kept records of a series are newer than `t` somewhere exactly when the supplied ones are. */
  lemma {:induction false} NewerKept(records: seq<Record>, s: Series, t: int)
    ensures Newer(RecordsOf(Kept(records)), s, t) <==> Newer(records, s, t)
  {
    hide Kept;
    var kept := RecordsOf(Kept(records));
    if i :| 0 <= i < |records| && records[i].series == s && t < records[i].time {
      var k := KeptOfKey(records, i);
      assert kept[k].series == s && t < kept[k].time;
    }
    if i :| 0 <= i < |kept| && kept[i].series == s && t < kept[i].time {
      var k := KeptSource(records, i);
    }
  }

  lemma {:induction false} KeptRecordsSnoc(records: seq<Record>, r: Record)
    ensures RecordsOf(Kept(records + [r])) == RecordsOf(Kept(records)) + if Known(records, r) then [] else [r]
  {
    hide Kept, Known, Position;
    KeptSnoc(records, r);
    KnownIsKept(records, r);
  }

  /** The kept events of a series are out of order exactly when one that is no duplicate came late. */
  lemma {:induction false} InvertedExactly(records: seq<Record>, s: Series)
    ensures Inverted(TimesOf(RecordsOf(Kept(records)), s)) <==> LateArrival(records, s)
  {
    if records != [] {
      hide Kept, Inverted, TimesOf, LateArrival, Known, Newer;
      var n := |records| - 1;
      var earlier, r := records[..n], records[n];
      assert records == earlier + [r];
      InvertedExactly(earlier, s);
      LateSnoc(earlier, r, s);
      KeptRecordsSnoc(earlier, r);
      var kept := RecordsOf(Kept(earlier));
      if !Known(earlier, r) {
        TimesOfSnoc(kept, r, s);
        if r.series == s {
          InvertedSnoc(TimesOf(kept, s), r.time);
          NewerTimes(kept, s, r.time);
          NewerKept(earlier, s, r.time);
        } else {
          assert TimesOf(kept, s) + [] == TimesOf(kept, s);
        }
      } else {
        assert kept + [] == kept;
      }
    }
  }

  /** Every row of the batch is the first event of its key; its flags tell exactly whether the key was repeated and
      whether its series had a late arrival. */
  lemma {:induction false} FlagsExactly(records: seq<Record>, i: nat)
    requires i < |Rows(Marked(Kept(records)))|
    ensures var rows := Rows(Marked(Kept(records)));
            && (exists k: nat :: k < |records| && FirstOfKey(records, k) && records[k] == rows[i].record)
            && (Columns(rows).flags[i].duplicateRemoved <==> Repeated(records, rows[i].record))
            && (Columns(rows).flags[i].reordered <==> LateArrival(records, rows[i].record.series))
  {
    hide Kept, Marked, Columns, Rows, Repeated, LateArrival, FirstOfKey, TimesOf, Inverted;
    var kept := Kept(records);
    var marked := Marked(kept);
    var rows := Rows(marked);
    ColumnsRead(rows, i);
    RowsInOrder(marked);
    assert rows[i] in multiset(rows);
    var j :| 0 <= j < |marked| && marked[j] == rows[i];
    assert marked[j] == MarkedAs(RecordsOf(kept), kept[j]);
    KeptIsFirst(records, j);
    KeptFromRecords(records, j);
    InvertedExactly(records, kept[j].record.series);
  }
}
