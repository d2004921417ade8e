/**
  Concatenating the images of a sequence under a function, in order: the
  shape of a loop that appends a batch of rows per input record.
 */
module Flatten {

  /** `f(xs[0]) + f(xs[1]) + ...`, built by appending one image at a time. */
  function FlatMap<T, U>(xs: seq<T>, f: T -> seq<U>): seq<U>
  {
    if |xs| == 0 then []
    else FlatMap(xs[..|xs| - 1], f) + f(xs[|xs| - 1])
  }

  /** Appending one more element appends its image. */
  lemma FlatMapSnoc<T, U>(xs: seq<T>, x: T, f: T -> seq<U>)
    ensures FlatMap(xs + [x], f) == FlatMap(xs, f) + f(x)
  {
    assert (xs + [x])[..|xs|] == xs;
  }

  /** The images of a concatenation are the images of each part, in order. */
  lemma {:induction false} FlatMapAppend<T, U>(a: seq<T>, b: seq<T>, f: T -> seq<U>)
    ensures FlatMap(a + b, f) == FlatMap(a, f) + FlatMap(b, f)
    decreases |b|
  {
    if |b| == 0 {
      assert a + b == a;
    } else {
      var b', last := b[..|b| - 1], b[|b| - 1];
      assert b == b' + [last];
      assert a + b == (a + b') + [last];
      FlatMapSnoc(a + b', last, f);
      FlatMapSnoc(b', last, f);
      FlatMapAppend(a, b', f);
    }
  }

  /** When no image is empty, there are at least as many results as inputs. */
  lemma {:induction false} FlatMapAtLeast<T, U>(xs: seq<T>, f: T -> seq<U>)
    requires forall i :: 0 <= i < |xs| ==> |f(xs[i])| >= 1
    ensures |FlatMap(xs, f)| >= |xs|
    decreases |xs|
  {
    if |xs| > 0 {
      FlatMapAtLeast(xs[..|xs| - 1], f);
    }
  }
}
