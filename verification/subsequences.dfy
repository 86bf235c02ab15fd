/** Order-preserving selection from a sequence: the shape of every pandas
    boolean selection the app makes. */
module Subsequences {

  /** `a` is `b` with some elements left out and the rest in their order. */
  ghost predicate Subsequence<T>(a: seq<T>, b: seq<T>)
    decreases |b|
  {
    if a == [] then true
    else if b == [] then false
    else (a[|a| - 1] == b[|b| - 1] && Subsequence(a[..|a| - 1], b[..|b| - 1]))
         || Subsequence(a, b[..|b| - 1])
  }

  lemma {:induction false} SubsequenceOfItself<T>(a: seq<T>)
    ensures Subsequence(a, a)
    decreases |a|
  {
    if a != [] {
      SubsequenceOfItself(a[..|a| - 1]);
    }
  }

  /** Putting an element in front of the longer sequence keeps a selection a selection. */
  lemma {:induction false} SubsequenceConsRight<T>(a: seq<T>, x: T, b: seq<T>)
    requires Subsequence(a, b)
    ensures Subsequence(a, [x] + b)
    decreases |b|
  {
    if a != [] {
      var b' := [x] + b;
      assert b'[..|b'| - 1] == [x] + b[..|b| - 1];
      assert b'[|b'| - 1] == b[|b| - 1];
      if a[|a| - 1] == b[|b| - 1] && Subsequence(a[..|a| - 1], b[..|b| - 1]) {
        SubsequenceConsRight(a[..|a| - 1], x, b[..|b| - 1]);
      } else {
        SubsequenceConsRight(a, x, b[..|b| - 1]);
      }
    }
  }

  /** Putting the same element in front of both keeps a selection a selection. */
  lemma {:induction false} SubsequenceConsBoth<T>(x: T, a: seq<T>, b: seq<T>)
    requires Subsequence(a, b)
    ensures Subsequence([x] + a, [x] + b)
    decreases |b|
  {
    var a', b' := [x] + a, [x] + b;
    if b == [] {
      assert a == [];
      assert a'[..0] == [] && b'[..0] == [];
    } else {
      assert b'[..|b'| - 1] == [x] + b[..|b| - 1];
      assert b'[|b'| - 1] == b[|b| - 1];
      if a == [] {
        SubsequenceConsBoth(x, a, b[..|b| - 1]);
      } else {
        assert a'[..|a'| - 1] == [x] + a[..|a| - 1];
        assert a'[|a'| - 1] == a[|a| - 1];
        if a[|a| - 1] == b[|b| - 1] && Subsequence(a[..|a| - 1], b[..|b| - 1]) {
          SubsequenceConsBoth(x, a[..|a| - 1], b[..|b| - 1]);
        } else {
          SubsequenceConsBoth(x, a, b[..|b| - 1]);
        }
      }
    }
  }
}
