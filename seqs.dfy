/** Order-preserving operations on sequences: JavaScript's `filter`, and a `for … of` loop that appends to an output list. */
module Seqs {

  /** `xs.filter(keep)`: the elements for which `keep` holds, in their original order. */
  function Filter<T>(keep: T -> bool, xs: seq<T>): (ys: seq<T>)
    ensures |ys| <= |xs|
  {
    if xs == [] then []
    else if keep(xs[0]) then [xs[0]] + Filter(keep, xs[1..])
    else Filter(keep, xs[1..])
  }

  /** Filtering keeps the order: the filter of a concatenation is the concatenation of the filters. */
  lemma {:induction false} FilterAppend<T>(keep: T -> bool, a: seq<T>, b: seq<T>)
    ensures Filter(keep, a + b) == Filter(keep, a) + Filter(keep, b)
  {
    if a == [] {
      assert a + b == b;
    } else {
      var rest := a[1..] + b;
      assert (a + b)[0] == a[0] && (a + b)[1..] == rest;
      FilterAppend(keep, a[1..], b);
      if keep(a[0]) {
        assert Filter(keep, a + b) == [a[0]] + Filter(keep, rest);
        assert Filter(keep, a) == [a[0]] + Filter(keep, a[1..]);
      } else {
        assert Filter(keep, a + b) == Filter(keep, rest);
        assert Filter(keep, a) == Filter(keep, a[1..]);
      }
    }
  }

  /** An element survives the filter exactly when it is in the input and passes the test. */
  lemma {:induction false} FilterMembers<T>(keep: T -> bool, xs: seq<T>)
    ensures forall x :: x in Filter(keep, xs) <==> x in xs && keep(x)
  {
    if xs != [] {
      FilterMembers(keep, xs[1..]);
      assert xs == [xs[0]] + xs[1..];
    }
  }

  /** The outputs of `f` for each element of `xs`, concatenated in order. */
  function FlatMap<T, U>(f: T -> seq<U>, xs: seq<T>): seq<U>
  {
    if xs == [] then [] else f(xs[0]) + FlatMap(f, xs[1..])
  }

  /** Processing two lists one after the other yields the two outputs in that order. */
  lemma {:induction false} FlatMapAppend<T, U>(f: T -> seq<U>, a: seq<T>, b: seq<T>)
    ensures FlatMap(f, a + b) == FlatMap(f, a) + FlatMap(f, b)
  {
    if a == [] {
      assert a + b == b;
    } else {
      calc {
        FlatMap(f, a + b);
        f(a[0]) + FlatMap(f, (a + b)[1..]);
        { assert (a + b)[1..] == a[1..] + b; }
        f(a[0]) + FlatMap(f, a[1..] + b);
        { FlatMapAppend(f, a[1..], b); }
        f(a[0]) + (FlatMap(f, a[1..]) + FlatMap(f, b));
      }
    }
  }

  /** When each element yields at most one output, there are at most as many outputs as elements. */
  lemma {:induction false} FlatMapLength<T, U>(f: T -> seq<U>, xs: seq<T>)
    requires forall x :: |f(x)| <= 1
    ensures |FlatMap(f, xs)| <= |xs|
  {
    if xs != [] {
      FlatMapLength(f, xs[1..]);
    }
  }

  /** Every output comes from some element's outputs, and every element's outputs are among them. */
  lemma {:induction false} FlatMapMembers<T, U>(f: T -> seq<U>, xs: seq<T>)
    ensures forall y :: y in FlatMap(f, xs) ==> exists x :: x in xs && y in f(x)
    ensures forall x, y :: x in xs && y in f(x) ==> y in FlatMap(f, xs)
  {
    if xs != [] {
      FlatMapMembers(f, xs[1..]);
      assert xs == [xs[0]] + xs[1..];
      assert FlatMap(f, xs) == f(xs[0]) + FlatMap(f, xs[1..]);
      forall y | y in FlatMap(f, xs) ensures exists x :: x in xs && y in f(x) {
        if y !in f(xs[0]) {
          assert y in FlatMap(f, xs[1..]);
          var x :| x in xs[1..] && y in f(x);
          assert x in xs;
        }
      }
    }
  }
}
