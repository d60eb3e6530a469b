/** Strict total orders used for sorting option lists and group-by keys.
    Python's `sorted` on strings and pandas' sorted `groupby` on string
    columns compare code point by code point; tuple keys compare
    lexicographically, component by component. */
module Orders {

  /** `lt` is irreflexive, transitive and relates any two distinct values. */
  ghost predicate StrictTotalOrder<K(!new)>(lt: (K, K) -> bool) {
    && (forall x :: !lt(x, x))
    && (forall x, y, z :: lt(x, y) && lt(y, z) ==> lt(x, z))
    && (forall x, y :: x != y ==> lt(x, y) || lt(y, x))
  }

  /** Lexicographic order on strings by code point (Python's `<` on `str`). */
  predicate StrLt(a: string, b: string)
    decreases |a|
  {
    if |a| == 0 then |b| > 0
    else if |b| == 0 then false
    else if a[0] != b[0] then a[0] < b[0]
    else StrLt(a[1..], b[1..])
  }

  lemma {:induction false} StrLtIrreflexive(a: string)
    ensures !StrLt(a, a)
    decreases |a|
  {
    if |a| > 0 {
      StrLtIrreflexive(a[1..]);
    }
  }

  lemma {:induction false} StrLtTransitive(a: string, b: string, c: string)
    requires StrLt(a, b) && StrLt(b, c)
    ensures StrLt(a, c)
    decreases |a|
  {
    if |a| > 0 && a[0] == b[0] && b[0] == c[0] {
      StrLtTransitive(a[1..], b[1..], c[1..]);
    }
  }

  lemma {:induction false} StrLtConnected(a: string, b: string)
    requires a != b
    ensures StrLt(a, b) || StrLt(b, a)
    decreases |a|
  {
    if |a| > 0 && |b| > 0 && a[0] == b[0] {
      assert a == [a[0]] + a[1..] && b == [b[0]] + b[1..];
      StrLtConnected(a[1..], b[1..]);
    }
  }

  lemma StrLtIsStrictTotalOrder()
    ensures StrictTotalOrder(StrLt)
  {
    forall x ensures !StrLt(x, x) {
      StrLtIrreflexive(x);
    }
    forall x, y, z | StrLt(x, y) && StrLt(y, z) ensures StrLt(x, z) {
      StrLtTransitive(x, y, z);
    }
    forall x, y | x != y ensures StrLt(x, y) || StrLt(y, x) {
      StrLtConnected(x, y);
    }
  }

  /** Lexicographic order on pairs from orders on their components. */
  function Lex<A(==), B>(ltA: (A, A) -> bool, ltB: (B, B) -> bool): ((A, B), (A, B)) -> bool {
    (x: (A, B), y: (A, B)) => ltA(x.0, y.0) || (x.0 == y.0 && ltB(x.1, y.1))
  }

  lemma LexIsStrictTotalOrder<A(!new), B(!new)>(ltA: (A, A) -> bool, ltB: (B, B) -> bool)
    requires StrictTotalOrder(ltA) && StrictTotalOrder(ltB)
    ensures StrictTotalOrder(Lex(ltA, ltB))
  {
    var lt := Lex(ltA, ltB);
    forall x: (A, B), y: (A, B), z: (A, B) | lt(x, y) && lt(y, z) ensures lt(x, z) {
      if x.0 == y.0 && y.0 == z.0 {
        assert ltB(x.1, y.1) && ltB(y.1, z.1);
      } else if x.0 == y.0 {
        assert ltA(y.0, z.0);
      } else if y.0 == z.0 {
        assert ltA(x.0, y.0);
      } else {
        assert ltA(x.0, y.0) && ltA(y.0, z.0);
      }
    }
    forall x: (A, B), y: (A, B) | x != y ensures lt(x, y) || lt(y, x) {
      if x.0 != y.0 {
        assert ltA(x.0, y.0) || ltA(y.0, x.0);
      } else {
        assert x.1 != y.1;
        assert ltB(x.1, y.1) || ltB(y.1, x.1);
      }
    }
  }
}
