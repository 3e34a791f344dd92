/** JavaScript's `<` on strings: lexicographic order of the characters, the
    order the entry comparator sorts dates by. */
module DateOrder {

  /** `a < b` on strings. */
  predicate Below(a: string, b: string)
    decreases |a|
  {
    if a == [] then b != []
    else b != [] && (a[0] < b[0] || (a[0] == b[0] && Below(a[1..], b[1..])))
  }

  /** `!(a < b)`, that is `b <= a`. */
  predicate NotBelow(a: string, b: string) {
    !Below(a, b)
  }

  /** `a` and `b` agree on their first `k` characters, and there `a` ends
      while `b` goes on, or `a` has the smaller character. */
  predicate DiffersFirstAt(a: string, b: string, k: nat) {
    k <= |a| && k < |b| && a[..k] == b[..k] && (k == |a| || a[k] < b[k])
  }

  /** `a < b` exactly when `a` is a proper prefix of `b` or has the smaller
      character at the first position where they differ. */
  lemma {:induction false} BelowFirstDifference(a: string, b: string)
    ensures Below(a, b) <==> exists k: nat :: DiffersFirstAt(a, b, k)
    decreases |a|
  {
    if a == [] {
      if b != [] {
        assert DiffersFirstAt(a, b, 0);
      }
    } else if b != [] {
      BelowFirstDifference(a[1..], b[1..]);
      if Below(a, b) {
        if a[0] < b[0] {
          assert DiffersFirstAt(a, b, 0);
        } else {
          var k: nat :| DiffersFirstAt(a[1..], b[1..], k);
          assert a[..k + 1] == [a[0]] + a[1..][..k];
          assert b[..k + 1] == [b[0]] + b[1..][..k];
          assert DiffersFirstAt(a, b, k + 1);
        }
      }
      if exists k: nat :: DiffersFirstAt(a, b, k) {
        var k: nat :| DiffersFirstAt(a, b, k);
        if k > 0 {
          assert a[0] == a[..k][0] == b[..k][0] == b[0];
          assert a[1..][..k - 1] == a[..k][1..] && b[1..][..k - 1] == b[..k][1..];
          assert DiffersFirstAt(a[1..], b[1..], k - 1);
        }
      }
    }
  }

  lemma {:induction false} BelowIrreflexive(a: string)
    ensures !Below(a, a)
    decreases |a|
  {
    if a != [] {
      BelowIrreflexive(a[1..]);
    }
  }

  lemma {:induction false} BelowAsymmetric(a: string, b: string)
    requires Below(a, b)
    ensures !Below(b, a)
    decreases |a|
  {
    if a != [] && a[0] == b[0] {
      BelowAsymmetric(a[1..], b[1..]);
    }
  }

  lemma {:induction false} BelowTransitive(a: string, b: string, c: string)
    requires Below(a, b) && Below(b, c)
    ensures Below(a, c)
    decreases |a|
  {
    if a != [] && a[0] == b[0] && b[0] == c[0] {
      BelowTransitive(a[1..], b[1..], c[1..]);
    }
  }

  /** Two different strings are ordered one way or the other. */
  lemma {:induction false} BelowTotal(a: string, b: string)
    requires a != b
    ensures Below(a, b) || Below(b, a)
    decreases |a|
  {
    if a != [] && b != [] && a[0] == b[0] {
      assert a == [a[0]] + a[1..] && b == [b[0]] + b[1..];
      BelowTotal(a[1..], b[1..]);
    }
  }

  /** `<=` is transitive. */
  lemma NotBelowTransitive(a: string, b: string, c: string)
    requires NotBelow(a, b) && NotBelow(b, c)
    ensures NotBelow(a, c)
  {
    if Below(a, c) {
      if a == b {
      } else if b == c {
      } else {
        BelowTotal(a, b);
        BelowTotal(b, c);
        BelowTransitive(c, b, a);
        BelowAsymmetric(a, c);
      }
    }
  }

  /** Exactly one of `a < b`, `a == b` and `b < a` holds. */
  lemma Trichotomy(a: string, b: string)
    ensures a == b ==> !Below(a, b) && !Below(b, a)
    ensures a != b ==> (Below(a, b) <==> !Below(b, a))
  {
    if a == b {
      BelowIrreflexive(a);
    } else {
      BelowTotal(a, b);
      if Below(a, b) { BelowAsymmetric(a, b); }
    }
  }

  /** The comparator `(a, b) => a > b ? 1 : a < b ? -1 : 0`. */
  function Compare(a: string, b: string): (r: int)
    ensures r == 0 <==> a == b
    ensures r < 0 <==> Below(a, b)
    ensures r > 0 <==> Below(b, a)
  {
    Trichotomy(a, b);
    if Below(b, a) then 1 else if Below(a, b) then -1 else 0
  }

  /** The comparator is antisymmetric, as `Array.prototype.sort` requires of a
      consistent comparator. */
  lemma CompareAntisymmetric(a: string, b: string)
    ensures Compare(a, b) == -Compare(b, a)
  {
  }
}
