/** Keep-first de-duplication by a key: the rule the document processor
    applies to chunks, stated once for any element and key type. */
module Dedup {

  /** The keys occurring in `xs`. */
  function Keys<T, K>(key: T -> K, xs: seq<T>): set<K>
  {
    set i | 0 <= i < |xs| :: key(xs[i])
  }

  /** No two positions of `xs` carry the same key. */
  predicate NoDupKeys<T, K(==)>(key: T -> K, xs: seq<T>)
  {
    forall i, j | 0 <= i < j < |xs| :: key(xs[i]) != key(xs[j])
  }

  /** The position of the first element of `xs` with key `k`, or `|xs|` when
      there is none. */
  function FirstPos<T, K(==)>(key: T -> K, xs: seq<T>, k: K): (p: nat)
    ensures p <= |xs|
    ensures p < |xs| ==> key(xs[p]) == k
    ensures forall j | 0 <= j < p :: key(xs[j]) != k
  {
    if |xs| == 0 then 0
    else if key(xs[0]) == k then 0
    else 1 + FirstPos(key, xs[1..], k)
  }

  /** Scan `xs` left to right and keep an element only when its key has not
      been seen before. Written by its last element, the way a loop that
      appends to an output list sees it. */
  function KeepFirst<T, K(==)>(key: T -> K, xs: seq<T>): seq<T>
  {
    if |xs| == 0 then []
    else
      var init := xs[..|xs| - 1];
      var kept := KeepFirst(key, init);
      if key(xs[|xs| - 1]) in Keys(key, init) then kept else kept + [xs[|xs| - 1]]
  }

  lemma KeysAppend<T, K>(key: T -> K, xs: seq<T>, ys: seq<T>)
    ensures Keys(key, xs + ys) == Keys(key, xs) + Keys(key, ys)
  {
    var zs := xs + ys;
    forall k | k in Keys(key, zs) ensures k in Keys(key, xs) + Keys(key, ys) {
      var i :| 0 <= i < |zs| && key(zs[i]) == k;
      if i >= |xs| {
        assert zs[i] == ys[i - |xs|];
      }
    }
    forall k | k in Keys(key, xs) + Keys(key, ys) ensures k in Keys(key, zs) {
      if k in Keys(key, xs) {
        var i :| 0 <= i < |xs| && key(xs[i]) == k;
        assert zs[i] == xs[i];
      } else {
        var i :| 0 <= i < |ys| && key(ys[i]) == k;
        assert zs[|xs| + i] == ys[i];
      }
    }
  }

  /** A key occurs in `xs` exactly when its first position is inside `xs`. */
  lemma FirstPosFound<T, K>(key: T -> K, xs: seq<T>, k: K)
    ensures k in Keys(key, xs) <==> FirstPos(key, xs, k) < |xs|
  {
    var p := FirstPos(key, xs, k);
    if k in Keys(key, xs) {
      var i :| 0 <= i < |xs| && key(xs[i]) == k;
      assert p <= i;
    }
  }

  /** Appending an element does not move the first position of a key that is
      already present. */
  lemma FirstPosAppend<T, K>(key: T -> K, xs: seq<T>, x: T, k: K)
    requires k in Keys(key, xs)
    ensures FirstPos(key, xs + [x], k) == FirstPos(key, xs, k)
  {
    FirstPosFound(key, xs, k);
    var p := FirstPos(key, xs, k);
    var q := FirstPos(key, xs + [x], k);
    assert (xs + [x])[p] == xs[p];
    assert q <= p;
  }

  /** De-duplication loses no key. */
  lemma {:induction false} KeepFirstKeys<T, K>(key: T -> K, xs: seq<T>)
    ensures Keys(key, KeepFirst(key, xs)) == Keys(key, xs)
    decreases |xs|
  {
    if |xs| > 0 {
      var init, last := xs[..|xs| - 1], xs[|xs| - 1];
      assert xs == init + [last];
      KeepFirstKeys(key, init);
      KeysAppend(key, init, [last]);
      KeysAppend(key, KeepFirst(key, init), [last]);
    }
  }

  /** No two kept elements share a key. */
  lemma {:induction false} KeepFirstUnique<T, K>(key: T -> K, xs: seq<T>)
    ensures NoDupKeys(key, KeepFirst(key, xs))
    decreases |xs|
  {
    if |xs| > 0 {
      var init, last := xs[..|xs| - 1], xs[|xs| - 1];
      KeepFirstUnique(key, init);
      KeepFirstKeys(key, init);
      var kept := KeepFirst(key, init);
      if key(last) !in Keys(key, init) {
        assert forall i | 0 <= i < |kept| :: key(kept[i]) in Keys(key, kept);
      }
    }
  }

  /** Every kept element is the first element of the input with its key. */
  lemma {:induction false} KeepFirstTakesFirst<T, K>(key: T -> K, xs: seq<T>)
    ensures forall i | 0 <= i < |KeepFirst(key, xs)| ::
      var r := KeepFirst(key, xs);
      FirstPos(key, xs, key(r[i])) < |xs| && r[i] == xs[FirstPos(key, xs, key(r[i]))]
    decreases |xs|
  {
    if |xs| > 0 {
      var init, last := xs[..|xs| - 1], xs[|xs| - 1];
      assert xs == init + [last];
      KeepFirstTakesFirst(key, init);
      KeepFirstKeys(key, init);
      var kept := KeepFirst(key, init);
      var r := KeepFirst(key, xs);
      forall i | 0 <= i < |r|
        ensures FirstPos(key, xs, key(r[i])) < |xs| && r[i] == xs[FirstPos(key, xs, key(r[i]))]
      {
        if i < |kept| {
          assert r[i] == kept[i];
          assert key(kept[i]) in Keys(key, kept);
          FirstPosAppend(key, init, last, key(kept[i]));
          var p := FirstPos(key, init, key(kept[i]));
          assert xs[p] == init[p];
        } else {
          assert r[i] == last;
          FirstPosFound(key, init, key(last));
          var q := FirstPos(key, xs, key(last));
          assert xs[|xs| - 1] == last;
          assert q <= |xs| - 1;
        }
      }
    }
  }

  /** Kept elements appear in the order in which their keys first occur. */
  lemma {:induction false} KeepFirstOrdered<T, K>(key: T -> K, xs: seq<T>)
    ensures forall i, j | 0 <= i < j < |KeepFirst(key, xs)| ::
      var r := KeepFirst(key, xs);
      FirstPos(key, xs, key(r[i])) < FirstPos(key, xs, key(r[j]))
    decreases |xs|
  {
    if |xs| > 0 {
      var init, last := xs[..|xs| - 1], xs[|xs| - 1];
      assert xs == init + [last];
      KeepFirstOrdered(key, init);
      KeepFirstKeys(key, init);
      var kept := KeepFirst(key, init);
      var r := KeepFirst(key, xs);
      forall i, j | 0 <= i < j < |r|
        ensures FirstPos(key, xs, key(r[i])) < FirstPos(key, xs, key(r[j]))
      {
        assert r[i] == kept[i] && key(kept[i]) in Keys(key, kept);
        FirstPosAppend(key, init, last, key(kept[i]));
        FirstPosFound(key, init, key(kept[i]));
        if j < |kept| {
          assert r[j] == kept[j] && key(kept[j]) in Keys(key, kept);
          FirstPosAppend(key, init, last, key(kept[j]));
        } else {
          assert r[j] == last;
          FirstPosFound(key, init, key(last));
          var q := FirstPos(key, xs, key(last));
          assert xs[|xs| - 1] == last;
        }
      }
    }
  }

  /** Appending elements whose keys were all seen already changes nothing. */
  lemma {:induction false} KeepFirstAbsorbs<T, K>(key: T -> K, xs: seq<T>, ys: seq<T>)
    requires Keys(key, ys) <= Keys(key, xs)
    ensures KeepFirst(key, xs + ys) == KeepFirst(key, xs)
    decreases |ys|
  {
    if |ys| > 0 {
      var init, last := ys[..|ys| - 1], ys[|ys| - 1];
      assert ys == init + [last];
      KeysAppend(key, init, [last]);
      KeepFirstAbsorbs(key, xs, init);
      var zs := xs + ys;
      assert zs[..|zs| - 1] == xs + init;
      assert zs[|zs| - 1] == last;
      KeysAppend(key, xs, init);
      assert key(last) in Keys(key, [last]);
      assert key(last) in Keys(key, xs + init);
      assert KeepFirst(key, zs) == KeepFirst(key, xs + init);
    } else {
      assert xs + ys == xs;
    }
  }

  /** Uploading the same list twice gives what uploading it once gives. */
  lemma KeepFirstTwice<T, K>(key: T -> K, xs: seq<T>)
    ensures KeepFirst(key, xs + xs) == KeepFirst(key, xs)
  {
    KeepFirstAbsorbs(key, xs, xs);
  }

  /** A list without repeated keys is left as it is. */
  lemma {:induction false} KeepFirstOfUnique<T, K>(key: T -> K, xs: seq<T>)
    requires NoDupKeys(key, xs)
    ensures KeepFirst(key, xs) == xs
    decreases |xs|
  {
    if |xs| > 0 {
      var init, last := xs[..|xs| - 1], xs[|xs| - 1];
      assert NoDupKeys(key, init);
      KeepFirstOfUnique(key, init);
      assert xs == init + [last];
    }
  }

  /** De-duplicating a second time changes nothing. */
  lemma KeepFirstIdempotent<T, K>(key: T -> K, xs: seq<T>)
    ensures KeepFirst(key, KeepFirst(key, xs)) == KeepFirst(key, xs)
  {
    KeepFirstUnique(key, xs);
    KeepFirstOfUnique(key, KeepFirst(key, xs));
  }
}
