/** Small vocabulary shared by the other modules: optional values and finite sums. */
module Common {

  datatype Option<+T> = None | Some(value: T)

  /** The sum of a sequence of integers. */
  function Sum(xs: seq<int>): int {
    if xs == [] then 0 else Sum(xs[..|xs| - 1]) + xs[|xs| - 1]
  }

  /** Changing one element changes the sum by the difference. */
  lemma {:induction false} SumUpdate(xs: seq<int>, i: nat, v: int)
    requires i < |xs|
    ensures Sum(xs[i := v]) == Sum(xs) - xs[i] + v
  {
    var last := |xs| - 1;
    if i == last {
      assert xs[i := v][..last] == xs[..last];
    } else {
      SumUpdate(xs[..last], i, v);
      assert xs[i := v][..last] == xs[..last][i := v];
    }
  }

  /** A sum of non-negative terms is at least any one of its terms. */
  lemma {:induction false} SumAtLeast(xs: seq<int>, i: nat)
    requires i < |xs|
    requires forall k :: 0 <= k < |xs| ==> xs[k] >= 0
    ensures Sum(xs) >= xs[i]
  {
    var last := |xs| - 1;
    if i < last {
      SumAtLeast(xs[..last], i);
    } else {
      SumNonNegative(xs[..last]);
    }
  }

  lemma {:induction false} SumNonNegative(xs: seq<int>)
    requires forall k :: 0 <= k < |xs| ==> xs[k] >= 0
    ensures Sum(xs) >= 0
  {
    if xs != [] {
      SumNonNegative(xs[..|xs| - 1]);
    }
  }

  /** A sequence that is zero except at one place sums to that one element. */
  lemma {:induction false} SumSingle(xs: seq<int>, i: nat)
    requires i < |xs|
    requires forall k :: 0 <= k < |xs| && k != i ==> xs[k] == 0
    ensures Sum(xs) == xs[i]
  {
    var last := |xs| - 1;
    if i == last {
      SumZero(xs[..last]);
    } else {
      SumSingle(xs[..last], i);
    }
  }

  lemma {:induction false} SumZero(xs: seq<int>)
    requires forall k :: 0 <= k < |xs| ==> xs[k] == 0
    ensures Sum(xs) == 0
  {
    if xs != [] {
      SumZero(xs[..|xs| - 1]);
    }
  }

  lemma {:induction false} SumConstant(xs: seq<int>, v: int)
    requires forall k :: 0 <= k < |xs| ==> xs[k] == v
    ensures Sum(xs) == |xs| * v
  {
    if xs != [] {
      SumConstant(xs[..|xs| - 1], v);
      assert (|xs| - 1) * v + v == |xs| * v;
    }
  }

  /** The number of true elements. */
  function Count(bs: seq<bool>): nat {
    if bs == [] then 0
    else Count(bs[..|bs| - 1]) + if bs[|bs| - 1] then 1 else 0
  }

  lemma {:induction false} CountUpdate(bs: seq<bool>, i: nat, b: bool)
    requires i < |bs|
    ensures Count(bs[i := b]) == Count(bs) - (if bs[i] then 1 else 0) + (if b then 1 else 0)
  {
    var last := |bs| - 1;
    if i == last {
      assert bs[i := b][..last] == bs[..last];
    } else {
      CountUpdate(bs[..last], i, b);
      assert bs[i := b][..last] == bs[..last][i := b];
    }
  }

  lemma {:induction false} CountBounds(bs: seq<bool>)
    ensures Count(bs) <= |bs|
    ensures Count(bs) == |bs| <==> forall k :: 0 <= k < |bs| ==> bs[k]
    ensures Count(bs) == 0 <==> forall k :: 0 <= k < |bs| ==> !bs[k]
  {
    if bs != [] {
      var last := |bs| - 1;
      CountBounds(bs[..last]);
      assert forall k :: 0 <= k < last ==> bs[..last][k] == bs[k];
    }
  }

  function Pow2(k: nat): (p: nat)
    ensures p >= 1
  {
    if k == 0 then 1 else 2 * Pow2(k - 1)
  }

  /** Different multiples of `n` are at least `n` apart. */
  lemma MultiplesApart(a: int, b: int, n: nat)
    requires a < b
    ensures a * n + n <= b * n
  {
    assert (a + 1) * n <= b * n;
  }
}
