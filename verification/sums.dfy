/** Sums of sequences of amounts, and how they react to the edits the contracts make. */
module Sums {
  /** The sum, defined from the right so that a loop over a prefix extends it one element at a time. */
  function Sum(xs: seq<nat>): nat {
    if |xs| == 0 then 0 else Sum(xs[..|xs| - 1]) + xs[|xs| - 1]
  }

  lemma SumPrefix(xs: seq<nat>, k: nat)
    requires k < |xs|
    ensures Sum(xs[..k + 1]) == Sum(xs[..k]) + xs[k]
  {
    assert xs[..k + 1][..k] == xs[..k];
  }

  lemma {:induction false} SumConcat(xs: seq<nat>, ys: seq<nat>)
    ensures Sum(xs + ys) == Sum(xs) + Sum(ys)
  {
    if ys == [] {
      assert xs + ys == xs;
    } else {
      assert (xs + ys)[..|xs + ys| - 1] == xs + ys[..|ys| - 1];
      SumConcat(xs, ys[..|ys| - 1]);
    }
  }

  lemma SumSnoc(xs: seq<nat>, x: nat)
    ensures Sum(xs + [x]) == Sum(xs) + x
  {
    assert (xs + [x])[..|xs|] == xs;
  }

  lemma SumUpdate(xs: seq<nat>, i: nat, x: nat)
    requires i < |xs|
    ensures Sum(xs[i := x]) == Sum(xs) - xs[i] + x
  {
    var ys: seq<nat> := xs[i := x];
    assert ys[..i] == xs[..i] && ys[i + 1..] == xs[i + 1..];
    SumAround(xs, i);
    SumAround(ys, i);
  }

  lemma SumAround(xs: seq<nat>, i: nat)
    requires i < |xs|
    ensures Sum(xs) == Sum(xs[..i]) + xs[i] + Sum(xs[i + 1..])
  {
    assert xs == xs[..i + 1] + xs[i + 1..];
    SumConcat(xs[..i + 1], xs[i + 1..]);
    SumPrefix(xs, i);
  }

  /** Taking element `k` out of a list lowers the sum by exactly that element. */
  lemma SumRemove(xs: seq<nat>, k: nat)
    requires k < |xs|
    ensures Sum(xs[..k] + xs[k + 1..]) == Sum(xs) - xs[k]
  {
    SumAround(xs, k);
    SumConcat(xs[..k], xs[k + 1..]);
  }

  lemma {:induction false} SumPointwise(xs: seq<nat>, ys: seq<nat>, zs: seq<nat>)
    requires |xs| == |ys| == |zs|
    requires forall i :: 0 <= i < |xs| ==> zs[i] == xs[i] + ys[i]
    ensures Sum(zs) == Sum(xs) + Sum(ys)
  {
    if |xs| > 0 {
      SumPointwise(xs[..|xs| - 1], ys[..|xs| - 1], zs[..|xs| - 1]);
    }
  }

  lemma {:induction false} SumMonotone(xs: seq<nat>, ys: seq<nat>)
    requires |xs| == |ys|
    requires forall i :: 0 <= i < |xs| ==> xs[i] <= ys[i]
    ensures Sum(xs) <= Sum(ys)
  {
    if |xs| > 0 {
      SumMonotone(xs[..|xs| - 1], ys[..|xs| - 1]);
    }
  }

  /** No element, and no prefix, exceeds the sum. */
  lemma {:induction false} SumPrefixLe(xs: seq<nat>, k: nat)
    requires k <= |xs|
    ensures Sum(xs[..k]) <= Sum(xs)
  {
    assert xs == xs[..k] + xs[k..];
    SumConcat(xs[..k], xs[k..]);
  }

  lemma SumElementLe(xs: seq<nat>, i: nat)
    requires i < |xs|
    ensures xs[i] <= Sum(xs)
  {
    SumPrefix(xs, i);
    SumPrefixLe(xs, i + 1);
  }

  lemma {:induction false} SumZero(xs: seq<nat>)
    requires forall i :: 0 <= i < |xs| ==> xs[i] == 0
    ensures Sum(xs) == 0
  {
    if |xs| > 0 {
      SumZero(xs[..|xs| - 1]);
    }
  }

  /** Zeros at the end do not change a sum. */
  lemma SumZeroTail(xs: seq<nat>, n: nat)
    requires n <= |xs|
    requires forall i | n <= i < |xs| :: xs[i] == 0
    ensures Sum(xs) == Sum(xs[..n])
  {
    assert xs == xs[..n] + xs[n..];
    SumConcat(xs[..n], xs[n..]);
    SumZero(xs[n..]);
  }
}
