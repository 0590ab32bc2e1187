/** Matrix product on flat arrays: the sequential triple loop of src/hellogauss.c and src/rtgauss.cpp, and
    the parallel one, in which the n * n (i, j) iterations run interleaved in any order. */
module GaussMultiply {
  import opened Common
  import opened LinearAlgebra
  import opened HelloGauss

  function Product(in1: seq<real>, in2: seq<real>, n: nat): (m: Mat)
    requires |in1| == |in2| == n * n
    ensures IsMat(m, n, n)
  {
    Mul(Rows(in1, n), Rows(in2, n), n)
  }

  /** `acc` after `k` steps of the innermost loop. */
  function Accumulated(in1: seq<real>, in2: seq<real>, n: nat, i: nat, j: nat, k: nat): real
    requires |in1| == |in2| == n * n && i < n && j < n && k <= n
  {
    Dot(Rows(in1, n)[i], Rows(in2, n), j, k)
  }

  lemma ElementBounds(i: nat, j: nat, n: nat)
    requires i < n && j < n
    ensures 0 <= i * n + j < n * n
  {
    RowBounds(i, n);
  }

  /** What the innermost loop adds to `acc`. */
  function Term(in1: seq<real>, in2: seq<real>, n: nat, i: nat, j: nat, k: nat): real
    requires |in1| == |in2| == n * n && i < n && j < n && k < n
  {
    ElementBounds(i, k, n);
    ElementBounds(k, j, n);
    Times(in1[i * n + k], in2[k * n + j])
  }

  lemma InnerStep(in1: seq<real>, in2: seq<real>, n: nat, i: nat, j: nat, k: nat)
    requires |in1| == |in2| == n * n && i < n && j < n && k < n
    ensures Accumulated(in1, in2, n, i, j, k + 1)
         == Accumulated(in1, in2, n, i, j, k) + Term(in1, in2, n, i, j, k)
  {
    ElementBounds(i, k, n);
    ElementBounds(k, j, n);
    TermIs(in1, in2, n, i, j, k, in1[i * n + k], in2[k * n + j]);
  }

  /** One more term of a sum, its two factors known by other names. */
  lemma DotStep(v: Vec, m: Mat, j: nat, k: nat, x: real, y: real)
    requires k < |v| && k < |m| && (forall q :: 0 <= q < |m| ==> j < |m[q]|) && x == v[k] && y == m[k][j]
    ensures Dot(v, m, j, k + 1) == Dot(v, m, j, k) + Times(x, y)
  {
  }

  lemma ProductAt(in1: seq<real>, in2: seq<real>, n: nat, i: nat, j: nat)
    requires |in1| == |in2| == n * n && i < n && j < n
    ensures Product(in1, in2, n)[i][j] == Accumulated(in1, in2, n, i, j, n)
  {
  }

  // --- the sequential triple loop ---

  /** The innermost loop. */
  method InnerLoop(in1: array<real>, in2: array<real>, n: nat, i: nat, j: nat) returns (acc: real)
    requires in1.Length == in2.Length == n * n && i < n && j < n
    ensures acc == Product(in1[..], in2[..], n)[i][j]
  {
    ghost var a, b := in1[..], in2[..];
    acc := 0.0;
    for k := 0 to n
      invariant acc == Accumulated(a, b, n, i, j, k)
    {
      ElementBounds(i, k, n);
      ElementBounds(k, j, n);
      var x, y := in1[i * n + k], in2[k * n + j];
      assert x == a[i * n + k] && y == b[k * n + j];
      TermIs(a, b, n, i, j, k, x, y);
      acc := acc + Times(x, y);
    }
    ProductAt(a, b, n, i, j);
  }

  lemma TermIs(in1: seq<real>, in2: seq<real>, n: nat, i: nat, j: nat, k: nat, x: real, y: real)
    requires |in1| == |in2| == n * n && i < n && j < n && k < n
    requires 0 <= i * n + k < n * n && x == in1[i * n + k]
    requires 0 <= k * n + j < n * n && y == in2[k * n + j]
    ensures Accumulated(in1, in2, n, i, j, k + 1) == Accumulated(in1, in2, n, i, j, k) + Times(x, y)
  {
    At(in1, n, i, k);
    At(in2, n, k, j);
    DotStep(Rows(in1, n)[i], Rows(in2, n), j, k, x, y);
  }

  /** `gauss_multiply`, and `GAUSS_MUL_BODY` of src/rtgauss.cpp. */
  method Multiply(in1: array<real>, in2: array<real>, out: array<real>, n: nat)
    requires in1.Length == in2.Length == out.Length == n * n && out != in1 && out != in2
    modifies out
    ensures Rows(out[..], n) == Product(in1[..], in2[..], n)
  {
    ghost var product := Product(in1[..], in2[..], n);
    for i := 0 to n
      invariant in1[..] == old(in1[..]) && in2[..] == old(in2[..])
      invariant forall r :: 0 <= r < i ==> Rows(out[..], n)[r] == product[r]
    {
      RowBounds(i, n);
      ghost var before, a := out[..], i * n;
      for j := 0 to n
        invariant in1[..] == old(in1[..]) && in2[..] == old(in2[..])
        invariant forall p :: 0 <= p < |before| && !(a <= p < a + j) ==> out[p] == before[p]
        invariant forall p :: a <= p < a + j ==> out[p] == product[i][p - a]
      {
        var acc := InnerLoop(in1, in2, n, i, j);
        out[i * n + j] := acc;
      }
      OneRowChanged(before, out[..], n, i, a, product[i]);
    }
  }

  // --- the parallel loop ---

  /** One (i, j) iteration: not started, inside its innermost loop, or finished. */
  datatype Iteration = Waiting | Running(k: nat, acc: real) | Done

  /** `collapse(2)` numbers the iterations; iteration `p` has `i == p / n` and `j == p % n`. */
  datatype State = State(its: seq<Iteration>, out: seq<real>)

  datatype Inputs = Inputs(n: nat, in1: seq<real>, in2: seq<real>)

  predicate Fits(c: Inputs) {
    |c.in1| == |c.in2| == c.n * c.n
  }

  predicate Shape(c: Inputs, s: State) {
    && Fits(c) && |s.its| == |s.out| == c.n * c.n
    && forall p :: 0 <= p < |s.its| && s.its[p].Running? ==> s.its[p].k <= c.n
  }

  /** The position of an iteration number in the two loops, and the element it writes. */
  lemma Position(p: nat, n: nat)
    requires p < n * n
    ensures n > 0 && 0 <= p / n < n && 0 <= p % n < n && (p / n) * n + p % n == p
  {
  }

  /** One step of iteration `p`: `acc = 0`, one turn of the innermost loop, or the write to `out`. */
  predicate Step(c: Inputs, s: State, p: nat, s': State) {
    Shape(c, s) && p < |s.its| && !s.its[p].Done? && s' == Next(c, s, p)
  }

  function Next(c: Inputs, s: State, p: nat): State
    requires Shape(c, s) && p < |s.its| && !s.its[p].Done?
  {
    Position(p, c.n);
    NextAt(c, s, p, p / c.n, p % c.n)
  }

  function NextAt(c: Inputs, s: State, p: nat, i: nat, j: nat): State
    requires Shape(c, s) && p < |s.its| && !s.its[p].Done? && i < c.n && j < c.n && i * c.n + j == p
  {
    match s.its[p]
    case Waiting => s.(its := s.its[p := Running(0, 0.0)])
    case Running(k, acc) =>
      if k < c.n then
        s.(its := s.its[p := Running(k + 1, acc + Term(c.in1, c.in2, c.n, i, j, k))])
      else
        s.(its := s.its[p := Done], out := s.out[i * c.n + j := acc])
  }

  function Init(c: Inputs, out: seq<real>): State {
    State(seq(c.n * c.n, _ => Waiting), out)
  }

  /** Any interleaving of the iterations: `labels[k]` is the iteration that takes step `k`. */
  ghost predicate Run(c: Inputs, out: seq<real>, states: seq<State>, labels: seq<nat>) {
    && Fits(c) && |out| == c.n * c.n
    && |states| == |labels| + 1 && states[0] == Init(c, out)
    && forall k {:trigger labels[k]} :: 0 <= k < |labels| ==> Step(c, states[k], labels[k], states[k + 1])
  }

  predicate Finished(s: State) {
    forall p :: 0 <= p < |s.its| ==> s.its[p].Done?
  }

  // --- what every step keeps ---

  /** A finished iteration has stored its element, and no other iteration has touched that element. */
  predicate IterationOk(c: Inputs, out: seq<real>, s: State, p: nat)
    requires Shape(c, s) && |out| == |s.out| && p < |s.its|
  {
    Position(p, c.n);
    IterationOkAt(c, out, s, p, p / c.n, p % c.n)
  }

  predicate IterationOkAt(c: Inputs, out: seq<real>, s: State, p: nat, i: nat, j: nat)
    requires Shape(c, s) && |out| == |s.out| && p < |s.its| && i < c.n && j < c.n
  {
    match s.its[p]
    case Waiting => s.out[p] == out[p]
    case Running(k, acc) => s.out[p] == out[p] && acc == Accumulated(c.in1, c.in2, c.n, i, j, k)
    case Done => s.out[p] == Product(c.in1, c.in2, c.n)[i][j]
  }

  predicate Inv(c: Inputs, out: seq<real>, s: State) {
    Shape(c, s) && |out| == |s.out| && forall p :: 0 <= p < |s.its| ==> IterationOk(c, out, s, p)
  }

  /** A step touches its own iteration and at most the element with its own number. */
  lemma StepIsLocal(c: Inputs, s: State, p: nat, s': State)
    requires Step(c, s, p, s')
    ensures Shape(c, s')
    ensures forall q :: 0 <= q < |s.its| && q != p ==> s'.its[q] == s.its[q] && s'.out[q] == s.out[q]
  {
    Position(p, c.n);
  }

  /** One turn of the innermost loop. */
  lemma TurnMakesOk(c: Inputs, s: State, p: nat, i: nat, j: nat, k: nat)
    requires Shape(c, s) && p < |s.its| && i < c.n && j < c.n && i * c.n + j == p && k < c.n
    requires s.its[p] == Running(k, Accumulated(c.in1, c.in2, c.n, i, j, k))
    ensures NextAt(c, s, p, i, j).its[p] == Running(k + 1, Accumulated(c.in1, c.in2, c.n, i, j, k + 1))
    ensures NextAt(c, s, p, i, j).out == s.out
  {
    InnerStep(c.in1, c.in2, c.n, i, j, k);
  }

  lemma StepMakesOk(c: Inputs, out: seq<real>, s: State, p: nat, i: nat, j: nat, s': State)
    requires Shape(c, s) && p < |s.its| && !s.its[p].Done? && i < c.n && j < c.n && i * c.n + j == p
    requires s' == NextAt(c, s, p, i, j) && Shape(c, s') && |out| == |s.out| && IterationOkAt(c, out, s, p, i, j)
    ensures IterationOkAt(c, out, s', p, i, j)
  {
    if s.its[p].Running? {
      if s.its[p].k < c.n {
        TurnMakesOk(c, s, p, i, j, s.its[p].k);
      } else {
        ProductAt(c.in1, c.in2, c.n, i, j);
      }
    }
  }

  lemma StepKeepsInv(c: Inputs, out: seq<real>, s: State, p: nat, s': State)
    requires Inv(c, out, s) && Step(c, s, p, s')
    ensures Inv(c, out, s')
  {
    StepIsLocal(c, s, p, s');
    Position(p, c.n);
    assert IterationOk(c, out, s, p);
    StepMakesOk(c, out, s, p, p / c.n, p % c.n, s');
    forall q: nat | q < |s'.its| ensures IterationOk(c, out, s', q) {
      assert IterationOk(c, out, s, q);
    }
  }

  /** In every state of every interleaving, every element of `out` is either untouched or final. */
  lemma {:induction false} RunInv(c: Inputs, out: seq<real>, states: seq<State>, labels: seq<nat>, k: nat)
    requires Run(c, out, states, labels) && k < |states|
    ensures Inv(c, out, states[k])
  {
    if k > 0 {
      RunInv(c, out, states, labels, k - 1);
      var p := labels[k - 1];
      StepKeepsInv(c, out, states[k - 1], p, states[k]);
    }
  }

  // --- the result ---

  /** Every schedule computes the product that the sequential loop computes. */
  lemma EveryScheduleMultiplies(c: Inputs, out: seq<real>, states: seq<State>, labels: seq<nat>)
    requires Run(c, out, states, labels) && Finished(states[|labels|])
    ensures var last := states[|labels|].out;
      |last| == c.n * c.n && Rows(last, c.n) == Product(c.in1, c.in2, c.n)
  {
    RunInv(c, out, states, labels, |labels|);
    var s, n, product := states[|labels|], c.n, Product(c.in1, c.in2, c.n);
    forall i | 0 <= i < n ensures Rows(s.out, n)[i] == product[i] {
      forall j | 0 <= j < n ensures Rows(s.out, n)[i][j] == product[i][j] {
        At(s.out, n, i, j);
        var p := i * n + j;
        Number(i, j, n);
        assert IterationOk(c, out, s, p);
      }
    }
  }

  lemma Number(i: nat, j: nat, n: nat)
    requires i < n && j < n
    ensures (i * n + j) / n == i && (i * n + j) % n == j
  {
    var p := i * n + j;
    var q := p / n;
    if q < i {
      MultiplesApart(q, i, n);
    } else if i < q {
      MultiplesApart(i, q, n);
    }
  }

  // --- termination ---

  function Remaining(n: nat, it: Iteration): int {
    match it
    case Waiting => n + 2
    case Running(k, _) => n + 1 - k
    case Done => 0
  }

  function Left(c: Inputs, s: State): (r: seq<int>)
    ensures |r| == |s.its|
  {
    seq(|s.its|, p requires 0 <= p < |s.its| => Remaining(c.n, s.its[p]))
  }

  lemma StepCounts(c: Inputs, s: State, p: nat, s': State)
    requires Step(c, s, p, s')
    ensures Sum(Left(c, s')) == Sum(Left(c, s)) - 1
  {
    SumUpdate(Left(c, s), p, Left(c, s)[p] - 1);
    assert Left(c, s') == Left(c, s)[p := Left(c, s)[p] - 1];
  }

  lemma {:induction false} RunCounts(c: Inputs, out: seq<real>, states: seq<State>, labels: seq<nat>, k: nat)
    requires Run(c, out, states, labels) && k < |states|
    ensures k + Sum(Left(c, states[k])) == (c.n * c.n) * (c.n + 2)
  {
    if k == 0 {
      SumConstant(Left(c, states[0]), c.n + 2);
    } else {
      RunCounts(c, out, states, labels, k - 1);
      var p := labels[k - 1];
      StepCounts(c, states[k - 1], p, states[k]);
    }
  }

  /** No schedule takes more than `n * n * (n + 2)` steps, and one is finished exactly when it took them all,
      which is exactly when no iteration can move. */
  lemma EveryScheduleFinishes(c: Inputs, out: seq<real>, states: seq<State>, labels: seq<nat>)
    requires Run(c, out, states, labels)
    ensures var total := (c.n * c.n) * (c.n + 2);
      |labels| <= total && (Finished(states[|labels|]) <==> |labels| == total)
    ensures Finished(states[|labels|]) <==> !exists p, s' :: Step(c, states[|labels|], p, s')
  {
    var s := states[|labels|];
    RunInv(c, out, states, labels, |labels|);
    RunCounts(c, out, states, labels, |labels|);
    var left := Left(c, s);
    SumNonNegative(left);
    if Finished(s) {
      SumZero(left);
    } else {
      var p: nat :| p < |s.its| && !s.its[p].Done?;
      SumAtLeast(left, p);
      assert Step(c, s, p, Next(c, s, p));
    }
  }

  /** Two schedules, whatever was in `out` before: the same buffer in the end. */
  lemma ScheduleDoesNotMatter(c: Inputs, out: seq<real>, states: seq<State>, labels: seq<nat>,
                              out': seq<real>, states': seq<State>, labels': seq<nat>)
    requires Run(c, out, states, labels) && Finished(states[|labels|])
    requires Run(c, out', states', labels') && Finished(states'[|labels'|])
    ensures states[|labels|].out == states'[|labels'|].out
  {
    EveryScheduleMultiplies(c, out, states, labels);
    EveryScheduleMultiplies(c, out', states', labels');
    var s, t := states[|labels|].out, states'[|labels'|].out;
    forall p: nat | p < |s| ensures s[p] == t[p] {
      Position(p, c.n);
      At(s, c.n, p / c.n, p % c.n);
      At(t, c.n, p / c.n, p % c.n);
    }
  }
}
