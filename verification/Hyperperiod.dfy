/** The hyperperiod and the activation counts of scripts/dagc2rtdag.py and src/newstuff/taskset.cpp. */
module Hyperperiod {
  import opened Common

  ghost predicate Divides(d: int, x: int) {
    exists q: int :: x == q * d
  }

  lemma DividesIffNoRemainder(d: nat, x: nat)
    requires d > 0
    ensures Divides(d, x) <==> x % d == 0
  {
    if x % d == 0 {
      assert x == (x / d) * d;
    }
    if Divides(d, x) {
      var q: int :| x == q * d;
      NoRemainder(q, d, x);
    }
  }

  lemma NoRemainder(q: int, d: nat, x: nat)
    requires d > 0 && x == q * d
    ensures x % d == 0 && x / d == q
  {
    var r, p := x % d, x / d;
    assert x == p * d + r;
    if p < q {
      MultiplesApart(p, q, d);
    } else if q < p {
      MultiplesApart(q, p, d);
    }
  }

  lemma DividesCombination(d: int, x: int, y: int, f: int)
    requires Divides(d, x) && Divides(d, y)
    ensures Divides(d, x + f * y)
  {
    var p: int :| x == p * d;
    var q: int :| y == q * d;
    assert x + f * y == (p + f * q) * d;
  }

  /** `math.gcd`, by Euclid's algorithm. */
  function Gcd(a: nat, b: nat): (g: nat)
    requires a > 0 || b > 0
    ensures g > 0
    decreases b
  {
    if b == 0 then a else Gcd(b, a % b)
  }

  lemma {:induction false} GcdDivides(a: nat, b: nat)
    requires a > 0 || b > 0
    ensures Divides(Gcd(a, b), a) && Divides(Gcd(a, b), b)
    decreases b
  {
    if b == 0 {
      assert a == 1 * a && b == 0 * a;
    } else {
      GcdDivides(b, a % b);
      DividesCombination(Gcd(a, b), a % b, b, a / b);
      assert a == a % b + (a / b) * b;
    }
  }

  /** The greatest common divisor is a combination of the two numbers. */
  lemma {:induction false} Bezout(a: nat, b: nat) returns (u: int, v: int)
    requires a > 0 || b > 0
    ensures Gcd(a, b) == u * a + v * b
    decreases b
  {
    if b == 0 {
      u, v := 1, 0;
    } else {
      var u', v' := Bezout(b, a % b);
      u, v := v', u' - v' * (a / b);
      BezoutStep(a, b, a / b, a % b, u', v');
    }
  }

  lemma BezoutStep(a: int, b: int, q: int, r: int, u: int, v: int)
    requires a == q * b + r
    ensures u * b + v * r == v * a + (u - v * q) * b
  {
  }

  ghost predicate CommonMultiple(xs: seq<nat>, m: int) {
    forall k :: 0 <= k < |xs| ==> Divides(xs[k], m)
  }

  /** `m` is a positive common multiple that divides every other one. */
  ghost predicate LeastCommonMultiple(xs: seq<nat>, m: int) {
    m > 0 && CommonMultiple(xs, m) && forall c: int :: CommonMultiple(xs, c) ==> Divides(m, c)
  }

  /** One turn of the fold of `lcm`. */
  function Join(a: nat, b: nat): (m: nat)
    requires a > 0 && b > 0
  {
    a * b / Gcd(a, b)
  }

  lemma JoinIsProduct(a: nat, b: nat) returns (x: int, y: int)
    requires a > 0 && b > 0
    ensures a == x * Gcd(a, b) && b == y * Gcd(a, b) && Join(a, b) == x * b == a * y > 0
  {
    GcdDivides(a, b);
    var g := Gcd(a, b);
    x :| a == x * g;
    y :| b == y * g;
    assert a * b == (x * b) * g;
    NoRemainder(x * b, g, a * b);
    assert a * b == (a * y) * g;
    NoRemainder(a * y, g, a * b);
    Positive(x, g, a);
  }

  lemma Positive(x: int, g: nat, a: nat)
    requires a == x * g && a > 0
    ensures x > 0
  {
  }

  /** A number that `a` and `b` divide is a multiple of `a * b / gcd(a, b)`, and this is one itself. */
  lemma JoinIsLeast(a: nat, b: nat, c: int)
    requires a > 0 && b > 0
    ensures Join(a, b) > 0 && Divides(a, Join(a, b)) && Divides(b, Join(a, b))
    ensures Divides(a, c) && Divides(b, c) ==> Divides(Join(a, b), c)
  {
    var x, y := JoinIsProduct(a, b);
    assert a * y == y * a;
    assert Divides(a, Join(a, b)) && Divides(b, Join(a, b));
    if Divides(a, c) && Divides(b, c) {
      var u, v := Bezout(a, b);
      var p: int :| c == p * a;
      var q: int :| c == q * b;
      JoinDivides(a, b, Gcd(a, b), x, y, u, v, p, q, c);
      assert c == (u * q + v * p) * Join(a, b);
    }
  }

  /** With g = u a + v b: c g = u a c + v b c = (u q + v p) a b, and a b is g times the join. */
  lemma JoinDivides(a: int, b: int, g: int, x: int, y: int, u: int, v: int, p: int, q: int, c: int)
    requires g > 0 && a == x * g && b == y * g && g == u * a + v * b && c == p * a == q * b
    ensures c == (u * q + v * p) * (x * b)
  {
  }

  lemma DividesTransitive(d: int, m: int, c: int)
    requires Divides(d, m) && Divides(m, c)
    ensures Divides(d, c)
  {
    var p: int :| m == p * d;
    var q: int :| c == q * m;
    assert c == (q * p) * d;
  }

  /** `lcm`. */
  method Lcm(integers: seq<nat>) returns (a: nat)
    requires |integers| >= 1 && forall k :: 0 <= k < |integers| ==> integers[k] > 0
    ensures LeastCommonMultiple(integers, a)
  {
    a := integers[0];
    LcmOfOne(integers[..1]);
    for k := 1 to |integers|
      invariant LeastCommonMultiple(integers[..k], a)
    {
      var b := integers[k];
      LcmStep(integers[..k], a, b);
      assert integers[..k] + [b] == integers[..k + 1];
      a := Join(a, b);
    }
    assert integers[..|integers|] == integers;
  }

  lemma LcmOfOne(xs: seq<nat>)
    requires |xs| == 1 && xs[0] > 0
    ensures LeastCommonMultiple(xs, xs[0])
  {
    assert xs[0] == 1 * xs[0];
  }

  lemma LcmStep(xs: seq<nat>, a: nat, b: nat)
    requires LeastCommonMultiple(xs, a) && b > 0
    ensures LeastCommonMultiple(xs + [b], Join(a, b))
  {
    var ys, m := xs + [b], Join(a, b);
    JoinIsLeast(a, b, 0);
    forall k | 0 <= k < |ys| ensures Divides(ys[k], m) {
      if k < |xs| {
        DividesTransitive(xs[k], a, m);
      }
    }
    forall c: int | CommonMultiple(ys, c) ensures Divides(m, c) {
      assert ys[|xs|] == b;
      forall k | 0 <= k < |xs| ensures Divides(xs[k], c) {
        assert ys[k] == xs[k];
      }
      JoinIsLeast(a, b, c);
    }
  }

  // --- activations ---

  /** `to_us_safe` without the detour over floating point. */
  function ToMicroseconds(ns: nat): nat {
    ns / 1000
  }

  /** `num_activations` of src/newstuff/taskset.cpp. */
  function NumActivations(hyperperiod: nat, period: nat, repetitions: nat): nat
    requires period > 0
  {
    hyperperiod / period * repetitions
  }

  /** A DAG runs for exactly the repeated hyperperiod if and only if its period divides it. */
  lemma SpansHyperperiodIff(hyperperiod: nat, period: nat, repetitions: nat)
    requires period > 0 && repetitions > 0
    ensures NumActivations(hyperperiod, period, repetitions) * period == hyperperiod * repetitions
       <==> Divides(period, hyperperiod)
  {
    DividesIffNoRemainder(period, hyperperiod);
    ActivationsSpan(hyperperiod, period, repetitions);
    var r := hyperperiod % period;
    assert hyperperiod * repetitions == (hyperperiod - r) * repetitions + r * repetitions;
    if r > 0 {
      assert r * repetitions > 0;
    }
  }

  /** Each repetition spans the whole periods of a hyperperiod. */
  lemma ActivationsSpan(hyperperiod: nat, period: nat, repetitions: nat)
    requires period > 0
    ensures NumActivations(hyperperiod, period, repetitions) * period
         == (hyperperiod - hyperperiod % period) * repetitions
  {
    var q := hyperperiod / period;
    assert (q * repetitions) * period == (q * period) * repetitions;
  }

  /** With periods of whole microseconds all DAGs of a set span the same time. */
  lemma AllDagsSpanTheSame(periods: seq<nat>, hyperperiod: nat, repetitions: nat, k: nat)
    requires LeastCommonMultiple(periods, hyperperiod) && k < |periods| && repetitions > 0
    requires periods[k] > 0 && periods[k] % 1000 == 0
    ensures var h, p := ToMicroseconds(hyperperiod), ToMicroseconds(periods[k]);
      p > 0 && NumActivations(h, p, repetitions) * p == h * repetitions
      && h * repetitions * 1000 == hyperperiod * repetitions
  {
    var h, p := ToMicroseconds(hyperperiod), ToMicroseconds(periods[k]);
    WholeMicroseconds(periods, hyperperiod, k);
    SpansHyperperiodIff(h, p, repetitions);
    assert h * repetitions * 1000 == (h * 1000) * repetitions;
  }

  lemma WholeMicroseconds(periods: seq<nat>, hyperperiod: nat, k: nat)
    requires CommonMultiple(periods, hyperperiod) && k < |periods| && periods[k] > 0 && periods[k] % 1000 == 0
    ensures var h, p := ToMicroseconds(hyperperiod), ToMicroseconds(periods[k]);
      p > 0 && hyperperiod == h * 1000 && h % p == 0 && Divides(p, h)
  {
    var h, p := ToMicroseconds(hyperperiod), ToMicroseconds(periods[k]);
    var q: int :| hyperperiod == q * periods[k];
    assert q * periods[k] == (q * p) * 1000;
    NoRemainder(q, p, h);
  }

  /** With other periods they need not: 2.5 and 1 microseconds, hyperperiod 5. */
  lemma FractionalMicrosecondsDrift()
    ensures LeastCommonMultiple([2500, 1000], 5000)
    ensures var h, p := ToMicroseconds(5000), ToMicroseconds(2500);
      forall repetitions: nat :: repetitions > 0 ==> NumActivations(h, p, repetitions) * p != h * repetitions
  {
    LcmOfOne([2500]);
    LcmStep([2500], 2500, 1000);
    assert [2500] + [1000] == [2500, 1000];
    assert Gcd(2500, 1000) == Gcd(1000, 500) == Gcd(500, 0) == 500;
  }

  // --- the minimum running time ---

  /** The number of repetitions for `-S` seconds: at least the given one. */
  function Repetitions(numIters: nat, minSeconds: nat, hyperperiod: nat): nat
    requires hyperperiod > 0
  {
    var newIter := Nanoseconds(minSeconds) / hyperperiod;
    if minSeconds > 0 && numIters < newIter then newIter else numIters
  }

  /** Never fewer than given; without `-S` exactly those; with it, the fewest that are not fewer than given and
      leave less than a hyperperiod of the minimum uncovered. */
  lemma RepetitionsAreLeast(numIters: nat, minSeconds: nat, hyperperiod: nat)
    requires hyperperiod > 0
    ensures var r := Repetitions(numIters, minSeconds, hyperperiod);
      && (minSeconds == 0 ==> r == numIters)
      && CoversMinimum(r, numIters, minSeconds, hyperperiod)
      && forall n: nat :: CoversMinimum(n, numIters, minSeconds, hyperperiod) ==> r <= n
  {
    var minimum := minSeconds * 1_000_000_000;
    var q := minimum / hyperperiod;
    assert q * hyperperiod <= minimum < q * hyperperiod + hyperperiod;
    var r := Repetitions(numIters, minSeconds, hyperperiod);
    if r > q {
      MonotoneProduct(q, r, hyperperiod);
    }
    forall n: nat | CoversMinimum(n, numIters, minSeconds, hyperperiod) ensures r <= n {
      if n < q {
        MultiplesApart(n, q, hyperperiod);
      }
    }
  }

  predicate CoversMinimum(n: nat, numIters: nat, minSeconds: nat, hyperperiod: nat) {
    n >= numIters && n * hyperperiod + hyperperiod > minSeconds * 1_000_000_000
  }

  function Nanoseconds(seconds: nat): nat {
    seconds * 1_000_000_000
  }

  /** How long a DAG runs, in nanoseconds: its activations, counted and spaced in microseconds. */
  function RunningTime(period: nat, hyperperiod: nat, repetitions: nat): nat
    requires period >= 1000
  {
    var h, p := ToMicroseconds(hyperperiod), ToMicroseconds(period);
    NumActivations(h, p, repetitions) * p * 1000
  }

  /** What one repetition lasts, in nanoseconds: the whole periods of the hyperperiod, after the truncation. */
  function RepetitionTime(period: nat, hyperperiod: nat): (time: nat)
    requires period >= 1000
    ensures time <= hyperperiod
  {
    var h, p := ToMicroseconds(hyperperiod), ToMicroseconds(period);
    (h - h % p) * 1000
  }

  lemma RunningTimeIsRepeated(period: nat, hyperperiod: nat, repetitions: nat)
    requires period >= 1000
    ensures RunningTime(period, hyperperiod, repetitions) == repetitions * RepetitionTime(period, hyperperiod)
  {
    var h, p := ToMicroseconds(hyperperiod), ToMicroseconds(period);
    ActivationsSpan(h, p, repetitions);
    assert ((h - h % p) * repetitions) * 1000 == repetitions * ((h - h % p) * 1000);
  }

  /** The truncation loses nothing. */
  predicate SpansExactly(period: nat, hyperperiod: nat)
    requires period >= 1000
  {
    hyperperiod % 1000 == 0 && ToMicroseconds(hyperperiod) % ToMicroseconds(period) == 0
  }

  lemma LosesNothingIff(period: nat, hyperperiod: nat)
    requires period >= 1000
    ensures RepetitionTime(period, hyperperiod) == hyperperiod <==> SpansExactly(period, hyperperiod)
  {
  }

  /** The option promises that each DAG runs for a minimum time. As written the quotient is rounded down, and
      then every repetition may lose part of the hyperperiod, so that the promise is kept if and only if the
      given repetitions already last that long, or the hyperperiod divides the minimum and nothing is lost. */
  lemma MinimumTimeKeptIff(period: nat, hyperperiod: nat, numIters: nat, minSeconds: nat)
    requires period >= 1000 && hyperperiod > 0
    ensures RunningTime(period, hyperperiod, Repetitions(numIters, minSeconds, hyperperiod)) >= Nanoseconds(minSeconds)
      <==> (numIters * RepetitionTime(period, hyperperiod) >= Nanoseconds(minSeconds)
            || (Nanoseconds(minSeconds) % hyperperiod == 0 && SpansExactly(period, hyperperiod)))
  {
    var minimum, time := Nanoseconds(minSeconds), RepetitionTime(period, hyperperiod);
    RunningTimeIsRepeated(period, hyperperiod, Repetitions(numIters, minSeconds, hyperperiod));
    LosesNothingIff(period, hyperperiod);
    EnoughIff(numIters, minimum, hyperperiod, time);
  }

  /** The larger of `n` and `minimum / h`, times `time`, reaches `minimum`: when? */
  lemma EnoughIff(n: nat, minimum: nat, h: nat, time: nat)
    requires h > 0 && time <= h
    ensures var q := minimum / h;
      (if minimum > 0 && n < q then q else n) * time >= minimum
      <==> n * time >= minimum || (minimum % h == 0 && time == h)
  {
    var q, r := minimum / h, minimum % h;
    assert minimum == q * h + r;
    if n < q {
      assert n * time <= q * time by { MonotoneProduct(n, q, time); }
      assert q * time <= q * h && (time < h ==> q * time < q * h) by { StrictProduct(q, time, h); }
    } else {
      assert n * h >= q * h by { MonotoneProduct(q, n, h); }
    }
  }

  lemma MonotoneProduct(a: nat, b: nat, c: nat)
    requires a <= b
    ensures a * c <= b * c
  {
  }

  lemma StrictProduct(q: nat, a: nat, b: nat)
    requires q > 0 && a <= b
    ensures q * a <= q * b && (a < b ==> q * a < q * b)
  {
  }

  /** For periods of whole microseconds it comes down to the hyperperiod. */
  lemma WholeMicrosecondsKeepMinimumIff(periods: seq<nat>, hyperperiod: nat, k: nat, numIters: nat, minSeconds: nat)
    requires LeastCommonMultiple(periods, hyperperiod) && k < |periods|
    requires periods[k] > 0 && periods[k] % 1000 == 0
    ensures var minimum := Nanoseconds(minSeconds);
      RunningTime(periods[k], hyperperiod, Repetitions(numIters, minSeconds, hyperperiod)) >= minimum
      <==> (numIters * hyperperiod >= minimum || minimum % hyperperiod == 0)
  {
    WholeMicroseconds(periods, hyperperiod, k);
    LosesNothingIff(periods[k], hyperperiod);
    MinimumTimeKeptIff(periods[k], hyperperiod, numIters, minSeconds);
  }

  /** `-n 1 -S 1` with a period of 300 ms runs for 0.9 s, and `-n 10 -S 1` with periods of 2.5 and 1
      microseconds, whose hyperperiod divides a second, runs the first DAG for 0.8 s. */
  lemma MinimumTimeMissed()
    ensures Repetitions(1, 1, 300_000_000) == 3
    ensures RunningTime(300_000_000, 300_000_000, 3) == 900_000_000 < Nanoseconds(1)
    ensures LeastCommonMultiple([2500, 1000], 5000) && Nanoseconds(1) % 5000 == 0
    ensures Repetitions(10, 1, 5000) == 200_000
    ensures RunningTime(2500, 5000, 200_000) == 800_000_000 < Nanoseconds(1)
  {
    FractionalMicrosecondsDrift();
  }
}
