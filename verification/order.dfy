/** The orderings pandas sorts by: Python's string order (code point by code
    point, a proper prefix first) and the lexicographic order on tuples of
    strings that `groupby` uses for a list of keys. */
module Order {

  /** Python's `a < b` on `str`. */
  predicate StrLess(a: string, b: string)
    decreases |a|
  {
    |b| > 0 && (|a| == 0 || a[0] < b[0] || (a[0] == b[0] && StrLess(a[1..], b[1..])))
  }

  /** Every pair of earlier/later elements is in increasing string order. */
  predicate StrictlyIncreasing(s: seq<string>)
  {
    forall i, j :: 0 <= i < j < |s| ==> StrLess(s[i], s[j])
  }

  lemma {:induction false} StrLessIrreflexive(a: string)
    ensures !StrLess(a, a)
    decreases |a|
  {
    if |a| > 0 {
      StrLessIrreflexive(a[1..]);
    }
  }

  lemma {:induction false} StrLessTransitive(a: string, b: string, c: string)
    requires StrLess(a, b) && StrLess(b, c)
    ensures StrLess(a, c)
    decreases |a|
  {
    if |a| > 0 && a[0] == b[0] && b[0] == c[0] {
      StrLessTransitive(a[1..], b[1..], c[1..]);
    }
  }

  lemma {:induction false} StrLessTotal(a: string, b: string)
    ensures a == b || StrLess(a, b) || StrLess(b, a)
    decreases |a|
  {
    if |a| > 0 && |b| > 0 && a[0] == b[0] {
      StrLessTotal(a[1..], b[1..]);
      if a[1..] == b[1..] {
        assert a == [a[0]] + a[1..] && b == [b[0]] + b[1..];
      }
    }
  }

  lemma StrLessAsymmetric(a: string, b: string)
    requires StrLess(a, b)
    ensures !StrLess(b, a)
  {
    if StrLess(b, a) {
      StrLessTransitive(a, b, a);
      StrLessIrreflexive(a);
    }
  }

  /** In a strictly increasing sequence, positions follow the order of their values. */
  lemma IncreasingIndexOrder(s: seq<string>, i: int, j: int)
    requires StrictlyIncreasing(s) && 0 <= i < |s| && 0 <= j < |s|
    requires StrLess(s[i], s[j])
    ensures i < j
  {
    if j <= i {
      StrLessIrreflexive(s[i]);
      if j < i {
        StrLessAsymmetric(s[j], s[i]);
      }
    }
  }

  /** Comparing two strings that start with equally long heads: the heads decide
      unless they are equal, and then the tails decide. */
  lemma {:induction false} StrLessConcat(p: string, x: string, q: string, y: string)
    requires |p| == |q|
    ensures StrLess(p + x, q + y) <==> StrLess(p, q) || (p == q && StrLess(x, y))
    decreases |p|
  {
    if |p| > 0 {
      assert (p + x)[0] == p[0] && (q + y)[0] == q[0];
      assert (p + x)[1..] == p[1..] + x && (q + y)[1..] == q[1..] + y;
      StrLessConcat(p[1..], x, q[1..], y);
      if p[0] == q[0] && p[1..] == q[1..] {
        assert p == [p[0]] + p[1..] && q == [q[0]] + q[1..];
      }
    } else {
      assert p + x == x && q + y == y;
    }
  }

  /** Python's `<` on tuples of strings, which is how `groupby` orders a list of keys. */
  predicate KeyLess(a: seq<string>, b: seq<string>)
    decreases |a|
  {
    |b| > 0 && (|a| == 0 || StrLess(a[0], b[0]) || (a[0] == b[0] && KeyLess(a[1..], b[1..])))
  }

  lemma {:induction false} KeyLessIrreflexive(a: seq<string>)
    ensures !KeyLess(a, a)
    decreases |a|
  {
    if |a| > 0 {
      StrLessIrreflexive(a[0]);
      KeyLessIrreflexive(a[1..]);
    }
  }

  lemma {:induction false} KeyLessTransitive(a: seq<string>, b: seq<string>, c: seq<string>)
    requires KeyLess(a, b) && KeyLess(b, c)
    ensures KeyLess(a, c)
    decreases |a|
  {
    if |a| > 0 {
      if StrLess(a[0], b[0]) && StrLess(b[0], c[0]) {
        StrLessTransitive(a[0], b[0], c[0]);
      } else if a[0] == b[0] && b[0] == c[0] {
        KeyLessTransitive(a[1..], b[1..], c[1..]);
      }
    }
  }

  lemma {:induction false} KeyLessTotal(a: seq<string>, b: seq<string>)
    ensures a == b || KeyLess(a, b) || KeyLess(b, a)
    decreases |a|
  {
    if |a| > 0 && |b| > 0 {
      StrLessTotal(a[0], b[0]);
      if a[0] == b[0] {
        KeyLessTotal(a[1..], b[1..]);
        if a[1..] == b[1..] {
          assert a == [a[0]] + a[1..] && b == [b[0]] + b[1..];
        }
      }
    }
  }

  /** On one-element keys the tuple order is the string order. */
  lemma KeyLessSingleton(a: string, b: string)
    ensures KeyLess([a], [b]) <==> StrLess(a, b)
  {
    assert [a][1..] == [] && [b][1..] == [];
    StrLessIrreflexive(a);
  }

  /** On three-element keys the tuple order compares the first component, then
      the second, then the third. */
  lemma KeyLessTriple(a0: string, a1: string, a2: string, b0: string, b1: string, b2: string)
    ensures KeyLess([a0, a1, a2], [b0, b1, b2]) <==>
              StrLess(a0, b0) || (a0 == b0 && (StrLess(a1, b1) || (a1 == b1 && StrLess(a2, b2))))
  {
    assert [a0, a1, a2][1..] == [a1, a2] && [b0, b1, b2][1..] == [b1, b2];
    assert [a1, a2][1..] == [a2] && [b1, b2][1..] == [b2];
    KeyLessSingleton(a2, b2);
    assert KeyLess([a1, a2], [b1, b2]) <==> StrLess(a1, b1) || (a1 == b1 && KeyLess([a2], [b2]));
  }
}
