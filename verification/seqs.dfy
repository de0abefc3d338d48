/** Facts about sequences of names that the network's uniqueness rules rely on. */
module Seqs {

  /** No element occurs twice. */
  predicate Distinct<T(==)>(s: seq<T>) {
    forall i, j :: 0 <= i < j < |s| ==> s[i] != s[j]
  }

  /** The set of elements of a sequence. */
  function Elems<T>(s: seq<T>): set<T> {
    set x | x in s
  }

  lemma ElemsConcat<T>(a: seq<T>, b: seq<T>)
    ensures Elems(a + b) == Elems(a) + Elems(b)
  {
    forall x | x in a + b ensures x in a || x in b {
      var k :| 0 <= k < |a + b| && (a + b)[k] == x;
      if k < |a| { assert a[k] == x; } else { assert b[k - |a|] == x; }
    }
  }

  /** A concatenation is duplicate-free exactly when both halves are and they share nothing. */
  lemma DistinctConcat<T>(a: seq<T>, b: seq<T>)
    ensures Distinct(a + b) <==> Distinct(a) && Distinct(b) && (forall x :: x in a ==> x !in b)
  {
    if Distinct(a + b) {
      forall i, j | 0 <= i < j < |a| ensures a[i] != a[j] {
        assert a[i] == (a + b)[i] && a[j] == (a + b)[j];
      }
      forall i, j | 0 <= i < j < |b| ensures b[i] != b[j] {
        assert b[i] == (a + b)[|a| + i] && b[j] == (a + b)[|a| + j];
      }
      forall i, j | 0 <= i < |a| && 0 <= j < |b| ensures a[i] != b[j] {
        assert a[i] == (a + b)[i] && b[j] == (a + b)[|a| + j];
      }
    }
    if Distinct(a) && Distinct(b) && (forall x :: x in a ==> x !in b) {
      forall i, j | 0 <= i < j < |a + b| ensures (a + b)[i] != (a + b)[j] {
        if j < |a| {
          assert (a + b)[i] == a[i] && (a + b)[j] == a[j];
        } else if i < |a| {
          assert (a + b)[i] == a[i] && (a + b)[j] == b[j - |a|];
          assert a[i] in a && b[j - |a|] in b;
        } else {
          assert (a + b)[i] == b[i - |a|] && (a + b)[j] == b[j - |a|];
        }
      }
    }
  }

  /** Inserting one element anywhere keeps a sequence duplicate-free exactly when the
      element is new and the rest was duplicate-free. */
  lemma DistinctInsert<T>(a: seq<T>, x: T, b: seq<T>)
    ensures Distinct(a + [x] + b) <==> Distinct(a + b) && x !in a + b
  {
    DistinctConcat(a, [x]);
    DistinctConcat(a + [x], b);
    DistinctConcat(a, b);
    DistinctConcat([x], b);
    DistinctConcat(a, [x] + b);
    assert a + [x] + b == a + ([x] + b);
    assert forall y :: y in a + b <==> y in a || y in b;
    assert forall y :: y in [x] + b <==> y == x || y in b;
  }
}
