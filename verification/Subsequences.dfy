/** Sequences with some elements left out. */
module Subsequences {
  /** xs with some elements left out. */
  predicate Subsequence<T(==)>(xs: seq<T>, ys: seq<T>) {
    if xs == [] then true
    else if ys == [] then false
    else if xs[|xs| - 1] == ys[|ys| - 1] then Subsequence(xs[..|xs| - 1], ys[..|ys| - 1])
    else Subsequence(xs, ys[..|ys| - 1])
  }

  lemma {:induction false} SubsequenceSkips<T>(xs: seq<T>, ys: seq<T>, y: T)
    requires Subsequence(xs, ys)
    ensures Subsequence(xs, ys + [y])
    decreases |ys|, 1
  {
    assert (ys + [y])[..|ys|] == ys;
    if xs != [] && xs[|xs| - 1] == y {
      SubsequenceDrops(xs, ys);
    }
  }

  lemma {:induction false} SubsequenceDrops<T>(xs: seq<T>, ys: seq<T>)
    requires xs != [] && Subsequence(xs, ys)
    ensures Subsequence(xs[..|xs| - 1], ys)
    decreases |ys|, 0
  {
    if xs[|xs| - 1] == ys[|ys| - 1] {
      var zs := ys[..|ys| - 1];
      SubsequenceSkips(xs[..|xs| - 1], zs, ys[|ys| - 1]);
      assert zs + [ys[|ys| - 1]] == ys;
    } else {
      SubsequenceDrops(xs, ys[..|ys| - 1]);
      SubsequenceSkips(xs[..|xs| - 1], ys[..|ys| - 1], ys[|ys| - 1]);
      assert ys[..|ys| - 1] + [ys[|ys| - 1]] == ys;
    }
  }

  lemma SubsequenceTakes<T>(xs: seq<T>, ys: seq<T>, y: T)
    requires Subsequence(xs, ys)
    ensures Subsequence(xs + [y], ys + [y])
  {
    assert (xs + [y])[..|xs|] == xs && (ys + [y])[..|ys|] == ys;
  }

  lemma {:induction false} SubsequenceMember<T>(xs: seq<T>, ys: seq<T>, x: T)
    requires Subsequence(xs, ys) && x in xs
    ensures x in ys
    decreases |ys|
  {
    if xs[|xs| - 1] == ys[|ys| - 1] {
      if x != xs[|xs| - 1] {
        assert xs == xs[..|xs| - 1] + [xs[|xs| - 1]];
        SubsequenceMember(xs[..|xs| - 1], ys[..|ys| - 1], x);
      }
    } else {
      SubsequenceMember(xs, ys[..|ys| - 1], x);
    }
  }

  lemma {:induction false} SubsequenceLength<T>(xs: seq<T>, ys: seq<T>)
    requires Subsequence(xs, ys)
    ensures |xs| <= |ys|
    ensures |xs| == |ys| ==> xs == ys
    decreases |ys|
  {
    if xs != [] {
      var n := |ys| - 1;
      if xs[|xs| - 1] == ys[n] {
        SubsequenceLength(xs[..|xs| - 1], ys[..n]);
        assert xs == xs[..|xs| - 1] + [xs[|xs| - 1]] && ys == ys[..n] + [ys[n]];
      } else {
        SubsequenceLength(xs, ys[..n]);
      }
    }
  }
}
