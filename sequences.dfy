/** A function applied to each element of a sequence, and its elementwise facts. */
module Sequences {

  /** `f` applied to each element, in order. */
  function Map<A, B>(f: A -> B, xs: seq<A>): (r: seq<B>)
    ensures |r| == |xs|
  {
    if xs == [] then [] else Map(f, xs[..|xs| - 1]) + [f(xs[|xs| - 1])]
  }

  /** The element at position `j` of the image is the image of the element at `j`. */
  lemma {:induction false} MapAt<A, B>(f: A -> B, xs: seq<A>, j: nat)
    requires j < |xs|
    ensures Map(f, xs)[j] == f(xs[j])
  {
    var init := xs[..|xs| - 1];
    if j < |init| {
      MapAt(f, init, j);
      assert xs[j] == init[j];
    }
  }

  /** Every element of the image is the image of the element at the same position. */
  lemma MapAll<A, B>(f: A -> B, xs: seq<A>)
    ensures forall j :: 0 <= j < |xs| ==> Map(f, xs)[j] == f(xs[j])
  {
    forall j | 0 <= j < |xs|
      ensures Map(f, xs)[j] == f(xs[j])
    {
      MapAt(f, xs, j);
    }
  }

  /** The image of a prefix grows by the image of the next element. */
  lemma MapPrefix<A, B>(f: A -> B, xs: seq<A>, i: nat)
    requires i < |xs|
    ensures Map(f, xs[..i + 1]) == Map(f, xs[..i]) + [f(xs[i])]
  {
    assert xs[..i + 1][..i] == xs[..i];
  }
}
