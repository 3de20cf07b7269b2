/** Lexicographic order on strings, as Python compares them. */
module StringOrder {
  import opened Sorting

  predicate Leq(a: string, b: string) {
    a == "" || (b != "" && (a[0] < b[0] || (a[0] == b[0] && Leq(a[1..], b[1..]))))
  }

  lemma {:induction false} Total(a: string, b: string)
    ensures Leq(a, b) || Leq(b, a)
  {
    if a != "" && b != "" && a[0] == b[0] { Total(a[1..], b[1..]); }
  }

  lemma {:induction false} Transitive(a: string, b: string, c: string)
    requires Leq(a, b) && Leq(b, c)
    ensures Leq(a, c)
  {
    if a != "" && a[0] == b[0] == c[0] { Transitive(a[1..], b[1..], c[1..]); }
  }

  lemma {:induction false} Antisymmetric(a: string, b: string)
    requires Leq(a, b) && Leq(b, a)
    ensures a == b
  {
    if a != "" {
      Antisymmetric(a[1..], b[1..]);
      assert a == [a[0]] + a[1..] && b == [b[0]] + b[1..];
    }
  }

  /** Lexicographic order is total. */
  lemma {:induction false} IsTotal()
    ensures TotalPreorder(Leq)
    ensures forall a, b :: Leq(a, b) && Leq(b, a) ==> a == b
  {
    forall a, b ensures Leq(a, b) || Leq(b, a) { Total(a, b); }
    forall a, b, c | Leq(a, b) && Leq(b, c) ensures Leq(a, c) { Transitive(a, b, c); }
    forall a, b | Leq(a, b) && Leq(b, a) ensures a == b { Antisymmetric(a, b); }
  }

  /** `a` ends after `k` common characters, or has the smaller character there. */
  predicate Splits(a: string, b: string, k: nat) {
    && k <= |a| && k <= |b| && a[..k] == b[..k]
    && (k == |a| || (k < |b| && a[k] < b[k]))
  }

  /** The order is decided at the end of the longest common beginning. */
  lemma {:induction false} LeqMeans(a: string, b: string)
    ensures Leq(a, b) <==> exists k: nat :: Splits(a, b, k)
  {
    if a == "" {
      assert Splits(a, b, 0);
    } else if b != "" && a[0] == b[0] {
      LeqMeans(a[1..], b[1..]);
      if k: nat :| Splits(a, b, k) {
        assert k > 0 && Splits(a[1..], b[1..], k - 1) by {
          assert a[1..][..k - 1] == a[..k][1..] && b[1..][..k - 1] == b[..k][1..];
        }
      }
      if k: nat :| Splits(a[1..], b[1..], k) {
        assert a[..k + 1] == [a[0]] + a[1..][..k] && b[..k + 1] == [b[0]] + b[1..][..k];
        assert Splits(a, b, k + 1);
      }
    } else {
      assert forall k: nat :: Splits(a, b, k) ==> k == 0 || a[..k][0] == a[0];
      assert forall k: nat :: Splits(a, b, k) ==> k == 0 || b[..k][0] == b[0];
      if Leq(a, b) { assert Splits(a, b, 0); }
    }
  }
}
