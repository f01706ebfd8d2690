/** Laying out the images of a sequence's elements end to end, and the facts about splitting such a
    layout that the extraction and the email body both rely on. */
module Seqs {
  /** `f` applied to each element, the results laid end to end in order. */
  function FlatMap<A, B>(f: A -> seq<B>, xs: seq<A>): seq<B> {
    if xs == [] then [] else FlatMap(f, xs[..|xs| - 1]) + f(xs[|xs| - 1])
  }

  /** Mapping splits wherever the input is split. */
  lemma {:induction false} FlatMapTake<A, B>(f: A -> seq<B>, xs: seq<A>, n: nat)
    requires n <= |xs|
    ensures FlatMap(f, xs) == FlatMap(f, xs[..n]) + FlatMap(f, xs[n..])
    decreases |xs|
  {
    if n == |xs| {
      assert xs[..n] == xs;
      assert xs[n..] == [];
    } else {
      var init := xs[..|xs| - 1];
      FlatMapTake(f, init, n);
      assert init[..n] == xs[..n];
      var rest := xs[n..];
      assert rest[..|rest| - 1] == init[n..];
      assert rest[|rest| - 1] == xs[|xs| - 1];
    }
  }

  /** One more input element adds its image at the end. */
  lemma FlatMapSnoc<A, B>(f: A -> seq<B>, xs: seq<A>, i: nat)
    requires i < |xs|
    ensures FlatMap(f, xs[..i + 1]) == FlatMap(f, xs[..i]) + f(xs[i])
  {
    assert xs[..i + 1][..i] == xs[..i];
  }

  /** The mapping of `xs`, split around element `i`. */
  lemma FlatMapSplit<A, B>(f: A -> seq<B>, xs: seq<A>, i: nat)
    requires i < |xs|
    ensures FlatMap(f, xs) == FlatMap(f, xs[..i]) + f(xs[i]) + FlatMap(f, xs[i + 1..])
  {
    FlatMapTake(f, xs, i + 1);
    FlatMapSnoc(f, xs, i);
  }

  /** Mapping distributes over concatenation. */
  lemma FlatMapAppend<A, B>(f: A -> seq<B>, a: seq<A>, b: seq<A>)
    ensures FlatMap(f, a + b) == FlatMap(f, a) + FlatMap(f, b)
  {
    var xs := a + b;
    FlatMapTake(f, xs, |a|);
    assert xs[..|a|] == a && xs[|a|..] == b;
  }

  /** The mapping of one element is its image. */
  lemma FlatMapSingle<A, B>(f: A -> seq<B>, x: A)
    ensures FlatMap(f, [x]) == f(x)
  {
    assert [x][..0] == [];
  }

  /** Every element of the result comes from the image of one input element. */
  lemma {:induction false} FlatMapSound<A, B>(f: A -> seq<B>, xs: seq<A>, y: B) returns (i: nat)
    requires y in FlatMap(f, xs)
    ensures i < |xs| && y in f(xs[i])
    decreases |xs|
  {
    if y in FlatMap(f, xs[..|xs| - 1]) {
      i := FlatMapSound(f, xs[..|xs| - 1], y);
    } else {
      i := |xs| - 1;
    }
  }

  /** Concatenation is associative. */
  lemma Reassociate<T>(a: seq<T>, b: seq<T>, c: seq<T>)
    ensures a + b + c == a + (b + c)
  {
  }

  /** Concatenation regrouped. */
  lemma Regroup<T>(a: seq<T>, b: seq<T>, c: seq<T>, d: seq<T>, e: seq<T>)
    ensures a + (b + c + d) + e == a + b + c + d + e
  {
  }
}
