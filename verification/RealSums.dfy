/** Sums of reals: permutations, scaling, and the inequalities behind concentration measures. */
module RealSums {
  import opened Sorting

  function Sum(s: seq<real>): real {
    if s == [] then 0.0 else s[0] + Sum(s[1..])
  }

  function Square(x: real): (r: real)
    ensures r >= 0.0
  {
    x * x
  }

  function SumSquares(s: seq<real>): real {
    if s == [] then 0.0 else Square(s[0]) + SumSquares(s[1..])
  }

  predicate Nonnegative(s: seq<real>) {
    forall i :: 0 <= i < |s| ==> s[i] >= 0.0
  }

  predicate Geq(a: real, b: real) {
    a >= b
  }

  predicate Leq(a: real, b: real) {
    a <= b
  }

  lemma {:induction false} Concat(a: seq<real>, b: seq<real>)
    ensures Sum(a + b) == Sum(a) + Sum(b)
  {
    if a == [] {
      assert a + b == b;
    } else {
      Concat(a[1..], b);
      assert (a + b)[1..] == a[1..] + b;
    }
  }

  lemma {:induction false} InsertSum(x: real, s: seq<real>, le: (real, real) -> bool)
    ensures Sum(Insert(x, s, le)) == x + Sum(s)
  {
    if s == [] || le(x, s[0]) {
      assert ([x] + s)[1..] == s;
    } else {
      InsertSum(x, s[1..], le);
      assert ([s[0]] + Insert(x, s[1..], le))[1..] == Insert(x, s[1..], le);
    }
  }

  lemma {:induction false} SortSum(s: seq<real>, le: (real, real) -> bool)
    ensures Sum(Sort(s, le)) == Sum(s)
  {
    if s != [] {
      SortSum(s[1..], le);
      InsertSum(s[0], Sort(s[1..], le), le);
    }
  }

  lemma {:induction false} SumNonnegative(s: seq<real>)
    requires Nonnegative(s)
    ensures Sum(s) >= 0.0
    ensures Sum(s) == 0.0 ==> forall i :: 0 <= i < |s| ==> s[i] == 0.0
  {
    if s != [] {
      SumNonnegative(s[1..]);
      assert forall i :: 0 < i < |s| ==> s[i] == s[1..][i - 1];
    }
  }

  /** Squares of nonnegative numbers sum to at most the square of their sum. */
  lemma {:induction false} SquaresBelow(s: seq<real>)
    requires Nonnegative(s)
    ensures SumSquares(s) <= Square(Sum(s))
  {
    if s != [] {
      SquaresBelow(s[1..]);
      SumNonnegative(s[1..]);
      SquareOfSum(s[0], Sum(s[1..]));
    }
  }

  lemma {:induction false} SquareOfSum(a: real, b: real)
    requires a >= 0.0 && b >= 0.0
    ensures Square(a) + Square(b) <= Square(a + b)
  {
    assert (a + b) * (a + b) == a * a + b * b + 2.0 * (a * b);
    assert a * b >= 0.0;
  }

  function Positives(s: seq<real>): (n: nat)
    ensures n <= |s|
  {
    if s == [] then 0 else (if s[0] > 0.0 then 1 else 0) + Positives(s[1..])
  }

  lemma {:induction false} CauchyStep(a: real, s: real, q: real, n: real)
    requires n > 0.0 && s * s <= n * q
    ensures (a + s) * (a + s) <= (n + 1.0) * (a * a + q)
  {
    assert (a + s) * (a + s) == a * a + s * s + 2.0 * (a * s);
    assert (n + 1.0) * (a * a + q) == n * (a * a) + n * q + a * a + q;
    TwiceProduct(a, s, q, n);
  }

  lemma {:induction false} NegativeProduct(n: real, e: real)
    requires n > 0.0
    ensures e < 0.0 ==> n * e < 0.0
  {
  }

  lemma {:induction false} TwiceProduct(a: real, s: real, q: real, n: real)
    requires n > 0.0 && s * s <= n * q
    ensures 2.0 * (a * s) <= n * (a * a) + q
  {
    var d := n * a - s;
    assert d * d >= 0.0;
    assert d * d == n * (n * (a * a)) - n * (2.0 * (a * s)) + s * s by {
      assert (n * a) * (n * a) == n * (n * (a * a));
      assert (n * a) * s == n * (a * s);
    }
    var e := n * (a * a) + q - 2.0 * (a * s);
    NegativeProduct(n, e);
    assert n * e == n * (n * (a * a)) + n * q - n * (2.0 * (a * s));
  }

  lemma {:induction false} NoPositives(s: seq<real>)
    requires Nonnegative(s) && Positives(s) == 0
    ensures Sum(s) == 0.0 && SumSquares(s) == 0.0
  {
    if s != [] { NoPositives(s[1..]); }
  }

  /** Cauchy-Schwarz, counting only the terms that are not zero. */
  lemma {:induction false} CauchySchwarz(s: seq<real>)
    requires Nonnegative(s)
    ensures Square(Sum(s)) <= Positives(s) as real * SumSquares(s)
  {
    if s != [] {
      CauchySchwarz(s[1..]);
      if Positives(s[1..]) == 0 {
        NoPositives(s[1..]);
      } else if s[0] > 0.0 {
        CauchyStep(s[0], Sum(s[1..]), SumSquares(s[1..]), Positives(s[1..]) as real);
      }
    }
  }

  // ---------------------------------------------------------------- largest elements

  lemma {:induction false} OrdersAreTotal()
    ensures TotalPreorder(Geq) && TotalPreorder(Leq)
  {
  }

  function Without(s: seq<real>, j: nat): seq<real>
    requires j < |s|
  {
    s[..j] + s[j + 1..]
  }

  lemma {:induction false} WithoutOne(s: seq<real>, j: nat)
    requires j < |s|
    ensures Sum(s) == s[j] + Sum(Without(s, j))
    ensures multiset(Without(s, j)) == multiset(s) - multiset{s[j]}
  {
    assert s == s[..j] + ([s[j]] + s[j + 1..]);
    Concat(s[..j], [s[j]] + s[j + 1..]);
    Concat(s[..j], s[j + 1..]);
    assert ([s[j]] + s[j + 1..])[1..] == s[j + 1..];
  }

  /** `selection` takes each of its elements from a different place of `t`. */
  predicate Within(selection: seq<real>, t: seq<real>) {
    multiset(selection) <= multiset(t)
  }

  /** A descending list starts with the largest sum that this many of its elements can have. */
  lemma {:induction false} PrefixIsLargest(t: seq<real>, selection: seq<real>)
    requires Sorted(t, Geq) && Within(selection, t) && |selection| <= |t|
    ensures Sum(selection) <= Sum(t[..|selection|])
  {
    hide Within;
    if selection != [] {
      var rest := t[1..];
      var j := if t[0] in selection then IndexOf(selection, t[0]) else 0;
      BelowHead(t, selection, j);
      WithoutOne(selection, j);
      WithoutHead(selection, j, t);
      PrefixIsLargest(rest, Without(selection, j));
      assert t[..|selection|] == [t[0]] + rest[..|selection| - 1];
    }
  }

  lemma {:induction false} BelowHead(t: seq<real>, selection: seq<real>, j: nat)
    requires Sorted(t, Geq) && Within(selection, t) && j < |selection|
    ensures t != [] && selection[j] <= t[0]
  {
    assert selection[j] in multiset(selection) && selection[j] in multiset(t);
    var i :| 0 <= i < |t| && t[i] == selection[j];
    assert i > 0 ==> Geq(t[0], t[i]);
  }

  lemma {:induction false} WithoutHead(selection: seq<real>, j: nat, t: seq<real>)
    requires t != [] && j < |selection| && Within(selection, t)
    requires t[0] in selection ==> selection[j] == t[0]
    ensures Within(Without(selection, j), t[1..])
  {
    hide Sum, Without;
    WithoutOne(selection, j);
    assert t == [t[0]] + t[1..];
    assert multiset(t) == multiset{t[0]} + multiset(t[1..]);
    forall x ensures multiset(Without(selection, j))[x] <= multiset(t[1..])[x] {
      assert multiset(selection)[x] <= multiset(t)[x];
      assert x == t[0] && x !in selection ==> multiset(selection)[x] == 0;
    }
  }

  lemma {:induction false} HalvesBounds(t: seq<real>, k: nat)
    requires Sorted(t, Geq) && 0 < k <= |t|
    ensures forall i :: 0 <= i < k ==> t[k - 1] <= t[..k][i]
    ensures forall i :: 0 <= i < |t| - k ==> t[k..][i] <= t[k - 1]
  {
    forall i | 0 <= i < k ensures t[k - 1] <= t[..k][i] { assert i < k - 1 ==> Geq(t[i], t[k - 1]); }
    forall i | 0 <= i < |t| - k ensures t[k..][i] <= t[k - 1] { assert Geq(t[k - 1], t[k + i]); }
  }

  lemma {:induction false} Halves(t: seq<real>, k: nat)
    requires Sorted(t, Geq) && 0 < k <= |t|
    ensures Sum(t) == Sum(t[..k]) + Sum(t[k..])
    ensures k as real * t[k - 1] <= Sum(t[..k])
    ensures Sum(t[k..]) <= (|t| - k) as real * t[k - 1]
  {
    hide Sum, Sorted;
    HalvesBounds(t, k);
    assert t == t[..k] + t[k..];
    Concat(t[..k], t[k..]);
    AtLeast(t[..k], t[k - 1]);
    AtMost(t[k..], t[k - 1]);
  }

  /** The first `k` elements of a descending list have at least their proportional part of the sum. */
  lemma {:induction false} PrefixAboveAverage(t: seq<real>, k: nat)
    requires Sorted(t, Geq) && 0 < k <= |t|
    ensures Sum(t[..k]) * |t| as real >= k as real * Sum(t)
  {
    hide Sum, Sorted;
    Halves(t, k);
    Proportion(Sum(t[..k]), Sum(t[k..]), t[k - 1], k as real, (|t| - k) as real);
  }

  lemma {:induction false} AtLeast(s: seq<real>, lo: real)
    requires forall i :: 0 <= i < |s| ==> lo <= s[i]
    ensures |s| as real * lo <= Sum(s)
  {
    if s != [] {
      AtLeast(s[1..], lo);
      assert |s| as real * lo == |s[1..]| as real * lo + lo;
    }
  }

  lemma {:induction false} AtMost(s: seq<real>, hi: real)
    requires forall i :: 0 <= i < |s| ==> s[i] <= hi
    ensures Sum(s) <= |s| as real * hi
  {
    if s != [] {
      AtMost(s[1..], hi);
      assert |s| as real * hi == |s[1..]| as real * hi + hi;
    }
  }

  lemma {:induction false} Proportion(a: real, b: real, c: real, k: real, m: real)
    requires k >= 0.0 && m >= 0.0 && a >= k * c && b <= m * c
    ensures a * (k + m) >= k * (a + b)
  {
    MulMonotone(k * c, a, m);
    MulMonotone(b, m * c, k);
    Regroup(k, c, m);
    assert a * (k + m) == a * k + a * m && k * (a + b) == a * k + b * k;
  }

  lemma {:induction false} Regroup(k: real, c: real, m: real)
    ensures (k * c) * m == (m * c) * k
  {
    assert (k * c) * m == k * (c * m) && (m * c) * k == k * (m * c);
  }

  lemma {:induction false} MulMonotone(x: real, y: real, z: real)
    requires x <= y && z >= 0.0
    ensures x * z <= y * z
  {
    assert y * z - x * z == (y - x) * z;
  }

  lemma {:induction false} AddQuotients(a: real, b: real, t: real)
    requires t != 0.0
    ensures (a + b) / t == a / t + b / t
  {
  }
}
