/**
 The size-limited export: the full document if it fits, and otherwise the longest prefix of its series that
 does, found by binary search.  Sizes are those of compact JSON text; the text itself is not modelled.
 */
module ExportSearch {
  import opened Wrappers

  /** Serialized sizes: of the whole document, of everything but the two series lists and the truncation flag in a
      candidate, and of each list element.  The series list can be missing from the document. */
  datatype Document = Document(full: nat, rest: nat, series: Option<seq<nat>>, detail: seq<nat>)

  datatype ExportError = MissingSeries | TooLarge

  /** The whole document, or the first `count` series and detail series. */
  datatype Payload = Whole | Prefix(count: nat)

  function Elements(sizes: seq<nat>): nat {
    if sizes == [] then 0 else Elements(sizes[..|sizes| - 1]) + sizes[|sizes| - 1]
  }

  /** Brackets, elements, and commas between them. */
  function ArraySize(sizes: seq<nat>): nat {
    2 + Elements(sizes) + if sizes == [] then 0 else |sizes| - 1
  }

  function Take(sizes: seq<nat>, count: nat): seq<nat> {
    if count <= |sizes| then sizes[..count] else sizes
  }

  /** Size of the candidate with `count` series; its flag reads `true` when series are cut off and `false` when not. */
  function CandidateSize(d: Document, count: nat): nat
    requires d.series.Some?
  {
    d.rest + ArraySize(Take(d.series.value, count)) + ArraySize(Take(d.detail, count))
    + if count < |d.series.value| then |"true"| else |"false"|
  }

  lemma {:induction false} TakeGrows(sizes: seq<nat>, i: nat, j: nat)
    requires i <= j
    ensures ArraySize(Take(sizes, i)) <= ArraySize(Take(sizes, j))
    decreases j
  {
    if i < j {
      TakeGrows(sizes, i, j - 1);
      if j <= |sizes| {
        assert Take(sizes, j)[..j - 1] == Take(sizes, j - 1);
      } else {
        assert sizes[..|sizes|] == sizes;
      }
    }
  }

  /** A longer prefix is never smaller. */
  lemma {:induction false} SizeGrows(d: Document, i: nat, j: nat)
    requires d.series.Some? && i <= j
    ensures CandidateSize(d, i) <= CandidateSize(d, j)
  {
    hide ArraySize, Take;
    TakeGrows(d.series.value, i, j);
    TakeGrows(d.detail, i, j);
  }

  /** The export is within the limit, as long as possible, and refused exactly when even no series would fit. */
  method Serialize(d: Document, maxBytes: nat) returns (r: Result<Payload, ExportError>)
    ensures d.full <= maxBytes ==> r == Ok(Whole)
    ensures d.full > maxBytes && d.series.None? ==> r == Err(MissingSeries)
    ensures d.full > maxBytes && d.series.Some? ==>
              && (r == Err(TooLarge) <==> maxBytes < CandidateSize(d, 0))
              && (r.Err? ==> r.error == TooLarge)
              && (r.Ok? ==> r.value.Prefix? && r.value.count <= |d.series.value| && CandidateSize(d, r.value.count) <= maxBytes)
              && (r.Ok? ==> forall longer: nat :: r.value.count < longer <= |d.series.value| ==> maxBytes < CandidateSize(d, longer))
  {
    hide CandidateSize;
    if d.full <= maxBytes { return Ok(Whole); }
    var totalSeries := if d.series.Some? then |d.series.value| else 0;
    var low: int, high: int := 0, totalSeries;
    var best: Option<Payload> := None;
    while low <= high
      invariant 0 <= low <= high + 1 <= totalSeries + 1
      invariant d.series.None? ==> low == 0 && high == 0
      invariant best == if low == 0 then None else Some(Prefix(low - 1))
      invariant d.series.Some? && low > 0 ==> CandidateSize(d, low - 1) <= maxBytes
      invariant d.series.Some? ==> forall k: nat :: high < k <= totalSeries ==> maxBytes < CandidateSize(d, k)
      decreases high - low
    {
      var seriesCount: nat := (low + high) / 2;
      if d.series.None? { return Err(MissingSeries); }
      if CandidateSize(d, seriesCount) <= maxBytes {
        best := Some(Prefix(seriesCount));
        low := seriesCount + 1;
      } else {
        forall k: nat | seriesCount <= k <= totalSeries ensures maxBytes < CandidateSize(d, k) { SizeGrows(d, seriesCount, k); }
        high := seriesCount - 1;
      }
    }
    if best.Some? {
      SizeGrows(d, 0, low - 1);
      return Ok(best.value);
    }
    return Err(TooLarge);
  }

  lemma {:induction false} TakeOneMore(sizes: seq<nat>, k: nat)
    ensures ArraySize(Take(sizes, 0)) == 2
    ensures ArraySize(Take(sizes, k + 1)) - ArraySize(Take(sizes, k)) == if k < |sizes| then sizes[k] + (if k > 0 then 1 else 0) else 0
  {
    if k < |sizes| {
      assert Take(sizes, k + 1)[..k] == Take(sizes, k);
    } else {
      assert sizes[..|sizes|] == sizes;
    }
  }

  /** What one more series adds: itself, its detail entry if there is one, a comma before each but the first, and one
      letter when the flag turns to `false`. */
  lemma {:induction false} OneMoreSeries(d: Document, k: nat)
    requires d.series.Some? && k < |d.series.value|
    ensures CandidateSize(d, 0) == d.rest + |"[]"| + |"[]"| + |"true"|
    ensures var comma := if k > 0 then 1 else 0;
            CandidateSize(d, k + 1) - CandidateSize(d, k) ==
              (d.series.value[k] + comma) + (if k < |d.detail| then d.detail[k] + comma else 0)
              + (if k + 1 == |d.series.value| then |"false"| - |"true"| else 0)
  {
    hide ArraySize, Take;
    TakeOneMore(d.series.value, k);
    TakeOneMore(d.detail, k);
  }
}
