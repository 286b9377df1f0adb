/** Order-keeping list combinators shared by the modules: filtering by a
    predicate and concatenating what a function yields for each element. */
module Seqs {

  /** The elements of `xs` for which `p` is `want`, in their original order. */
  function Keep<T>(p: T -> bool, xs: seq<T>, want: bool): (r: seq<T>)
    ensures |r| <= |xs|
    ensures forall i | 0 <= i < |r| :: p(r[i]) == want
  {
    if |xs| == 0 then []
    else
      var init := Keep(p, xs[..|xs| - 1], want);
      if p(xs[|xs| - 1]) == want then init + [xs[|xs| - 1]] else init
  }

  /** The kept and the dropped elements together are the input, each element
      as often as it occurs. */
  lemma {:induction false} KeepSplits<T>(p: T -> bool, xs: seq<T>)
    ensures multiset(Keep(p, xs, true)) + multiset(Keep(p, xs, false)) == multiset(xs)
    decreases |xs|
  {
    if |xs| > 0 {
      var init := xs[..|xs| - 1];
      KeepSplits(p, init);
      assert xs == init + [xs[|xs| - 1]];
    }
  }

  /** The concatenation, in order, of what `f` yields for each element. */
  function FlatMap<A, B>(f: A -> seq<B>, xs: seq<A>): seq<B> {
    if |xs| == 0 then [] else FlatMap(f, xs[..|xs| - 1]) + f(xs[|xs| - 1])
  }

  /** Mapping a concatenation concatenates the results: order is kept. */
  lemma {:induction false} FlatMapAppend<A, B>(f: A -> seq<B>, a: seq<A>, b: seq<A>)
    ensures FlatMap(f, a + b) == FlatMap(f, a) + FlatMap(f, b)
    decreases |b|
  {
    if |b| == 0 {
      assert a + b == a;
    } else {
      FlatMapAppend(f, a, b[..|b| - 1]);
      assert (a + b)[..|a + b| - 1] == a + b[..|b| - 1];
    }
  }

  lemma FlatMapSingle<A, B>(f: A -> seq<B>, a: A)
    ensures FlatMap(f, [a]) == f(a)
  {
    assert [a][..0] == [];
  }
}
