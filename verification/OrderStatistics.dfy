/** Nearest-rank order statistics, stated through counts. */
module OrderStatistics {
  import opened Sorting

  function Ceil(x: real): (c: int)
    ensures x <= c as real < x + 1.0
  {
    -((0.0 - x).Floor)
  }

  /** The share `p` of `n` values, as a threshold for counts. */
  function Share(p: real, n: nat): real {
    p * n as real
  }

  /** Position of the nearest-rank quantile in a sorted list of `n` values. */
  function RankIndex(p: real, n: nat): int {
    var k := Ceil(Share(p, n)) - 1;
    if k < 0 then 0 else k
  }

  lemma {:induction false} ShareInRange(p: real, n: nat)
    requires 0.0 < p <= 1.0 && n > 0
    ensures 0.0 < Share(p, n) <= n as real
  {
  }

  lemma {:induction false} ShareMonotone(p: real, q: real, n: nat)
    requires p <= q
    ensures Share(p, n) <= Share(q, n)
  {
    assert q * n as real - p * n as real == (q - p) * n as real;
  }

  lemma {:induction false} RankInRange(p: real, n: nat)
    requires 0.0 < p <= 1.0 && n > 0
    ensures 0 <= RankIndex(p, n) < n
    ensures RankIndex(p, n) as real < Share(p, n) <= (RankIndex(p, n) + 1) as real
  {
  }

  function CountWhere<T>(s: seq<T>, p: T -> bool): (n: nat)
    ensures n <= |s|
  {
    if s == [] then 0 else (if p(s[0]) then 1 else 0) + CountWhere(s[1..], p)
  }

  lemma {:induction false} CountCons<T>(x: T, s: seq<T>, p: T -> bool)
    ensures CountWhere([x] + s, p) == (if p(x) then 1 else 0) + CountWhere(s, p)
  {
    assert ([x] + s)[1..] == s;
  }

  lemma {:induction false} InsertKeepsCount<T>(x: T, s: seq<T>, le: (T, T) -> bool, p: T -> bool)
    ensures CountWhere(Insert(x, s, le), p) == CountWhere(s, p) + if p(x) then 1 else 0
  {
    if s == [] || le(x, s[0]) {
      assert ([x] + s)[1..] == s;
    } else {
      InsertKeepsCount(x, s[1..], le, p);
      assert ([s[0]] + Insert(x, s[1..], le))[1..] == Insert(x, s[1..], le);
    }
  }

  lemma {:induction false} SortKeepsCount<T>(s: seq<T>, le: (T, T) -> bool, p: T -> bool)
    ensures CountWhere(Sort(s, le), p) == CountWhere(s, p)
  {
    if s != [] {
      SortKeepsCount(s[1..], le, p);
      InsertKeepsCount(s[0], Sort(s[1..], le), le, p);
    }
  }

  lemma {:induction false} CountNone<T>(s: seq<T>, p: T -> bool)
    requires forall i :: 0 <= i < |s| ==> !p(s[i])
    ensures CountWhere(s, p) == 0
  {
    if s != [] { CountNone(s[1..], p); }
  }

  lemma {:induction false} CountAll<T>(s: seq<T>, p: T -> bool)
    requires forall i :: 0 <= i < |s| ==> p(s[i])
    ensures CountWhere(s, p) == |s|
  {
    if s != [] { CountAll(s[1..], p); }
  }

  /** In a list where `p` holds of a prefix, the count is the length of that prefix. */
  lemma {:induction false} CountIsPrefix<T>(s: seq<T>, p: T -> bool, i: nat)
    requires i < |s| && forall j, k :: 0 <= j < k < |s| && p(s[k]) ==> p(s[j])
    ensures p(s[i]) <==> i < CountWhere(s, p)
  {
    if p(s[0]) {
      if i > 0 {
        assert s[1..][i - 1] == s[i];
        CountIsPrefix(s[1..], p, i - 1);
      }
    } else {
      CountNone(s, p);
    }
  }

  /** Counting splits over two exclusive conditions. */
  lemma {:induction false} CountSplits<T>(s: seq<T>, p: T -> bool, q: T -> bool, r: T -> bool)
    requires forall i :: 0 <= i < |s| ==> (r(s[i]) <==> p(s[i]) || q(s[i])) && !(p(s[i]) && q(s[i]))
    ensures CountWhere(s, r) == CountWhere(s, p) + CountWhere(s, q)
  {
    if s != [] {
      assert forall i :: 0 <= i < |s[1..]| ==> s[1..][i] == s[i + 1];
      CountSplits(s[1..], p, q, r);
    }
  }
}
