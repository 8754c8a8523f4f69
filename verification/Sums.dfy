/** Sums over sequences, and the fact that they do not depend on order. */
module Sums {

  function Sum<T>(s: seq<T>, f: T -> real): real {
    if s == [] then 0.0 else Sum(s[..|s| - 1], f) + f(s[|s| - 1])
  }

  lemma {:induction false} SumAppend<T>(a: seq<T>, b: seq<T>, f: T -> real)
    ensures Sum(a + b, f) == Sum(a, f) + Sum(b, f)
  {
    if b == [] {
      assert a + b == a;
    } else {
      assert (a + b)[..|a + b| - 1] == a + b[..|b| - 1];
      SumAppend(a, b[..|b| - 1], f);
    }
  }

  lemma SumSingle<T>(x: T, f: T -> real)
    ensures Sum([x], f) == f(x)
  {
    assert [x][..0] == [];
  }

  lemma SumInsert<T>(a: seq<T>, x: T, b: seq<T>, f: T -> real)
    ensures Sum(a + ([x] + b), f) == Sum(a + b, f) + f(x)
  {
    hide Sum;
    SumAppend(a, [x] + b, f);
    SumAppend([x], b, f);
    SumAppend(a, b, f);
    SumSingle(x, f);
  }

  /** Some occurrence of `x` splits `s`. */
  lemma SplitAt<T>(s: seq<T>, x: T) returns (a: seq<T>, b: seq<T>)
    requires x in multiset(s)
    ensures s == a + ([x] + b)
    ensures multiset(a + b) == multiset(s) - multiset{x}
  {
    var i :| 0 <= i < |s| && s[i] == x;
    a, b := s[..i], s[i + 1..];
    assert s == a + ([x] + b);
    assert multiset(s) == multiset(a) + multiset{x} + multiset(b);
  }

  lemma {:induction false} SumPermutes<T>(s: seq<T>, t: seq<T>, f: T -> real)
    requires multiset(s) == multiset(t)
    ensures Sum(s, f) == Sum(t, f)
  {
    if s == [] {
      assert |multiset(t)| == 0;
    } else {
      var front, x := s[..|s| - 1], s[|s| - 1];
      assert s == front + [x];
      assert multiset(front) == multiset(s) - multiset{x};
      assert x in multiset(s);
      var a, b := SplitAt(t, x);
      SumPermutes(front, a + b, f);
      SumInsert(a, x, b, f);
    }
  }
}
