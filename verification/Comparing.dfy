/** Three-way comparison of tuples, component by component, as Python compares tuples. */
module Comparing {
  import opened Wrappers
  import opened Sorting
  import StringOrder

  datatype Cmp = Less | Equal | Greater

  ghost predicate Lawful<T(!new)>(c: (T, T) -> Cmp) {
    && (forall a, b :: c(a, b) == Equal <==> a == b)
    && (forall a, b :: c(a, b) == Less <==> c(b, a) == Greater)
    && (forall x, y, z :: c(x, y) == Less && c(y, z) == Less ==> c(x, z) == Less)
  }

  function Ints(a: int, b: int): Cmp {
    if a < b then Less else if a == b then Equal else Greater
  }

  function Strings(a: string, b: string): Cmp {
    if a == b then Equal else if StringOrder.Leq(a, b) then Less else Greater
  }

  /** `None` before everything else; Python refuses to compare it with a value. */
  function Options<T>(c: (T, T) -> Cmp): (Option<T>, Option<T>) -> Cmp {
    (a: Option<T>, b: Option<T>) =>
      match (a, b)
      case (None, None) => Equal
      case (None, Some(_)) => Less
      case (Some(_), None) => Greater
      case (Some(x), Some(y)) => c(x, y)
  }

  /** First components decide unless they are equal. */
  function Pairs<A, B>(c: (A, A) -> Cmp, d: (B, B) -> Cmp): ((A, B), (A, B)) -> Cmp {
    (x: (A, B), y: (A, B)) => if c(x.0, y.0) == Equal then d(x.1, y.1) else c(x.0, y.0)
  }

  /** Comparison of values by a key. */
  function By<T, K>(key: T -> K, c: (K, K) -> Cmp): (T, T) -> Cmp {
    (a, b) => c(key(a), key(b))
  }

  lemma {:induction false} IntsLawful()
    ensures Lawful(Ints)
  {
  }

  lemma {:induction false} StringsLawful()
    ensures Lawful(Strings)
  {
    StringOrder.IsTotal();
  }

  lemma {:induction false} OptionsLawful<T(!new)>(c: (T, T) -> Cmp)
    requires Lawful(c)
    ensures Lawful(Options(c))
  {
  }

  /** Comparing pairs part by part is lawful when the parts' comparisons are. */
  lemma {:induction false} PairsLawful<A(!new), B(!new)>(c: (A, A) -> Cmp, d: (B, B) -> Cmp)
    requires Lawful(c) && Lawful(d)
    ensures Lawful(Pairs(c, d))
  {
    var p := Pairs(c, d);
    forall x, y
      ensures p(x, y) == Equal <==> x == y
      ensures p(x, y) == Less <==> p(y, x) == Greater
    {
      assert c(x.0, y.0) == Equal <==> x.0 == y.0;
      assert c(y.0, x.0) == Equal <==> y.0 == x.0;
      assert d(x.1, y.1) == Equal <==> x.1 == y.1;
      assert c(x.0, y.0) == Less <==> c(y.0, x.0) == Greater;
      assert d(x.1, y.1) == Less <==> d(y.1, x.1) == Greater;
    }
    forall x, y, z | p(x, y) == Less && p(y, z) == Less ensures p(x, z) == Less {
      assert c(x.0, y.0) == Equal ==> x.0 == y.0;
      assert c(y.0, z.0) == Equal ==> y.0 == z.0;
    }
  }

  lemma {:induction false} ByLawful<T(!new), K(!new)>(key: T -> K, c: (K, K) -> Cmp)
    requires Lawful(c) && forall a, b :: key(a) == key(b) ==> a == b
    ensures Lawful(By(key, c))
  {
  }

  lemma {:induction false} ByTotal<T(!new), K(!new)>(key: T -> K, c: (K, K) -> Cmp)
    requires Lawful(c)
    ensures TotalPreorder(AtMost(By(key, c)))
  {
  }

  function AtMost<T>(c: (T, T) -> Cmp): (T, T) -> bool {
    (a, b) => c(a, b) != Greater
  }

  lemma {:induction false} LawfulIsTotal<T(!new)>(c: (T, T) -> Cmp)
    requires Lawful(c)
    ensures TotalPreorder(AtMost(c))
  {
  }

  // ---------------------------------------------------------------- tables of distinct values

  function Distinct<T(==)>(s: seq<T>): (r: seq<T>)
    ensures forall i :: 0 <= i < |r| ==> r[i] in s
  {
    if s == [] then [] else if s[0] in s[1..] then Distinct(s[1..]) else [s[0]] + Distinct(s[1..])
  }

  lemma {:induction false} DistinctMember<T>(s: seq<T>, x: T)
    ensures x in Distinct(s) <==> x in s
  {
    if s != [] { DistinctMember(s[1..], x); }
  }

  lemma {:induction false} DistinctDiffers<T>(s: seq<T>)
    ensures Pairwise(Distinct(s), Different)
  {
    if s != [] {
      DistinctDiffers(s[1..]);
      DistinctMember(s[1..], s[0]);
    }
  }

  /** The sorted distinct values: position in the table is the identifier. */
  function Table<T(==)>(values: seq<T>, c: (T, T) -> Cmp): seq<T> {
    Sort(Distinct(values), AtMost(c))
  }

  /** A table holds exactly the values, in increasing order, each once. */
  lemma {:induction false} TableHolds<T(!new)>(values: seq<T>, c: (T, T) -> Cmp)
    requires Lawful(c)
    ensures forall x :: x in Table(values, c) <==> x in values
    ensures forall i, j :: 0 <= i < j < |Table(values, c)| ==> c(Table(values, c)[i], Table(values, c)[j]) == Less
  {
    hide Sort;
    LawfulIsTotal(c);
    SortSorts(Distinct(values), AtMost(c));
    DistinctDiffers(values);
    SortKeepsPairwise(Distinct(values), AtMost(c), Different);
    var t := Table(values, c);
    forall x ensures x in t <==> x in values {
      DistinctMember(values, x);
      SortSameElements(Distinct(values), AtMost(c), x);
    }
    forall i, j | 0 <= i < j < |t| ensures c(t[i], t[j]) == Less {
      assert AtMost(c)(t[i], t[j]) && Different(t[i], t[j]);
    }
  }
}
